# Monitoring backend and console helpers, in Dafny

This project models the computational core of a monitoring system for two
payment services, `pi-gateway` and `pi-connector`. The system is a Java
(Spring) backend that reads logs and per-minute metrics from a Bigtable
store, plus several browser consoles that draw what the backend returns.
Although the repository is mostly presentation code, it also holds the
backend those pages call, and that backend is what most of this model
covers. Each part is a pure function over finite sequences of records:

- **Store rows** (`BigtableRows`, `BigtableScans`). This covers:
  - the `%013d#type#connector#suffix` row keys, their decoding into log entries, and the lenient cell parsers;
  - the post-read filter-and-limit loops of the log search, the error-log scan, the metric window and the trace-by-message scan.

  The rows of the store are an input sequence in key order. `Decimal` models Java's decimal printing and parsing and the fact that 13-digit keys sort by time. `Text` models `toLowerCase` and `String.split`, and `JavaInt` models 32- and 64-bit wrap-around.
- **Log search** (`LogService`): the multi-field filter, the sort by time or latency, the page slice with Java `int` arithmetic, the page count and the summary.
- **Metrics** (`Metrics`, `MetricsLogs`). This covers:
  - the service status classifier, the totals over two metric streams and their merged timeline;
  - the latency histogram, the status breakdown, the percentile;
  - the slowest and most failing endpoints.
- **Analytics** (`AnalyticsStats`, `AnalyticsPeriods`, `AnalyticsTrends`, `AnalyticsTop`, `AnalyticsStatus`, `AnalyticsAnomalies`):
  - traffic levels, percentiles, percent change and difference;
  - period comparison and the gateway-against-connector comparison;
  - the day-by-hour traffic heatmap and daily trends;
  - top clients and endpoints, the status-class distribution, and hourly anomaly flags.
- **Traces** (`TraceService`):
  - step decoding, ordering and numbering;
  - the duration and outcome of a trace;
  - bottleneck detection with its suggestion.
- **Console helpers** (`Helpers`, `Formatters`, `Display`, `LogsPage`, `FilterState`, `LogsExplorer`, `DataAdapter`):
  - status, health and trend classifiers; latency units;
  - label tables; path and id truncation;
  - the filter object and the query parameters it becomes;
  - the explorer's pagination;
  - the adapter from the backend's overview to the console's cards.

Shared building blocks are `Wrappers` (`Option`, for Java's `null`), `Seqs` (filter, take, count, sum, mean, percent), `Sorting` (a stable sort over a total preorder, like Java's `List.sort`) and `Grouping` (group-by in order of first appearance).

Doubles are modelled as `real`, which is exact arithmetic without rounding. The clock is a parameter `now`. Calendar and time-zone computations are parameters: `local` maps an instant to a day key and hour, and `dayKeyAgo` gives the day key for n days ago.

## Model

| member | source | states |
|---|---|---|
| Metrics.ParseDoubleOr0 | src/main/java/com/gutouch/monitoring/service/MetricsService.java:424-431 | a missing or empty value, or text that is not a number, reads as 0; a number reads as its value |
| Metrics.ParseLongOr0 | src/main/java/com/gutouch/monitoring/service/MetricsService.java:433-440 | the result is a 64-bit value; missing, empty or malformed text reads as 0; other text gives exactly its `Long.parseLong` value, so an optional sign and digits read as their value when it fits in 64 bits |
| Metrics.ParseIntOr0 | src/main/java/com/gutouch/monitoring/service/MetricsService.java:442-449 | the result is a 32-bit value; missing, empty or malformed text reads as 0; other text gives exactly its `Integer.parseInt` value, so an optional sign and digits read as their value when it fits in 32 bits |
| Metrics.ParseOr0Digits | src/main/java/com/gutouch/monitoring/service/MetricsService.java:433-449 | an optional sign followed by digits reads as its value when it fits the type (64 bits for a long, 32 for an int) and as 0 otherwise |
| Metrics.ParseOr0RoundTrip | src/main/java/com/gutouch/monitoring/service/MetricsService.java:424-449 | a number written in decimal reads back as itself through each of the three parsers, within the parser's range |
| Metrics.ServiceStatusOf | src/main/java/com/gutouch/monitoring/service/MetricsService.java:116-156 | an empty window list gives the "unknown" status with all figures 0; otherwise every figure comes from the last window |
| Metrics.ServiceStatusRules | src/main/java/com/gutouch/monitoring/service/MetricsService.java:137-145 | the status is "down" exactly when uptime is under 99 %; "degraded" exactly when uptime is fine but the error rate is over 5 % or latency is over 200 ms; "healthy" otherwise |
| Metrics.ServiceStatusUsesLatest | src/main/java/com/gutouch/monitoring/service/MetricsService.java:129-135 | only the last window decides the status: earlier windows change nothing |
| Metrics.MissingUptimeIsDown | src/main/java/com/gutouch/monitoring/service/MetricsService.java:131-140 | a last window without an uptime column reads as 0 % uptime, so the service shows as down |
| Metrics.LatestWindow | src/main/java/com/gutouch/monitoring/service/MetricsService.java:162-164 | the latest window of the combined list is the last connector window, or the last gateway window when the connector list is empty |
| Metrics.Totals | src/main/java/com/gutouch/monitoring/service/MetricsService.java:161-211 | no windows gives all-zero totals; otherwise the success rate, error rate and latency are the means over every gateway and connector window, the percentiles and timeout rate come from the latest window, and the request total is the 64-bit wrapped sum of every window's rate |
| Metrics.RequestSumAppend | src/main/java/com/gutouch/monitoring/service/MetricsService.java:179-181 | the request sum over both lists is the sum over the gateway list plus the sum over the connector list |
| Metrics.TotalRequestsWrap | src/main/java/com/gutouch/monitoring/service/MetricsService.java:179-181 | the total wraps the gateway sum plus the connector sum to 64 bits, as a Java long overflows |
| Metrics.TotalRequestsExact | src/main/java/com/gutouch/monitoring/service/MetricsService.java:179-181 | when the sum fits in a long, the total is exactly the sum |
| Metrics.TotalsRatesBounded | src/main/java/com/gutouch/monitoring/service/MetricsService.java:183-196 | averages of the success rate, error rate and latency lie within any bounds (containing 0) that every window respects |
| Metrics.StartTime | src/main/java/com/gutouch/monitoring/service/MetricsService.java:370-385 | the start lies before the end by 6 h, 24 h, 7 days or 30 days for those ranges, and by 1 h for "1h" and any other text |
| Metrics.StartTimesNest | src/main/java/com/gutouch/monitoring/service/MetricsService.java:370-385 | longer ranges start strictly earlier: 30d before 7d before 24h before 6h before 1h |
| Metrics.LastRateFound | src/main/java/com/gutouch/monitoring/service/MetricsService.java:220-236 | a timestamp has a rate exactly when some window carries that timestamp |
| Metrics.LastRateIsLast | src/main/java/com/gutouch/monitoring/service/MetricsService.java:223-225 | the rate kept for a timestamp is the rate of the last window with that timestamp |
| Metrics.Timestamps | src/main/java/com/gutouch/monitoring/service/MetricsService.java:239-242 | the point timestamps are strictly ascending and are exactly the timestamps of the windows of either list |
| Metrics.Timeline | src/main/java/com/gutouch/monitoring/service/MetricsService.java:216-243 | one point per distinct timestamp, oldest first, carrying the last gateway rate and the last connector rate for it, and at least one of the two |
| Metrics.TimelineCoversWindows | src/main/java/com/gutouch/monitoring/service/MetricsService.java:216-243 | a timestamp has a point exactly when a window of either list carries it |
| Metrics.GatewayBuilders | src/main/java/com/gutouch/monitoring/service/MetricsService.java:217-227 | after the gateway loop, a builder exists exactly for the gateway timestamps and holds the last gateway rate and no connector rate |
| Metrics.AddConnector | src/main/java/com/gutouch/monitoring/service/MetricsService.java:229-237 | after the connector loop, a builder exists for every timestamp of either list and holds the last gateway and the last connector rate for it |
| Metrics.ConnectorStep | src/main/java/com/gutouch/monitoring/service/MetricsService.java:230-236 | one connector window creates its builder if missing and overwrites only that builder's connector rate |
| Metrics.BuildTimeline | src/main/java/com/gutouch/monitoring/service/MetricsService.java:216-243 | the loops over the builders yield exactly the timeline |
| Metrics.MissingTimestampIsEpoch | src/main/java/com/gutouch/monitoring/service/MetricsService.java:221-224 | a gateway window without a timestamp is read as time 0 and lands on a point at time 0 that has a gateway rate |
| MetricsLogs.BucketOf | src/main/java/com/gutouch/monitoring/service/MetricsService.java:261-273 | the bucket chosen for a latency is one whose bounds hold it |
| MetricsLogs.OneBucket | src/main/java/com/gutouch/monitoring/service/MetricsService.java:261-273 | every latency falls in exactly one of the six buckets |
| MetricsLogs.Tally | src/main/java/com/gutouch/monitoring/service/MetricsService.java:257-274 | counting one log keeps the six counters |
| MetricsLogs.TallyStep | src/main/java/com/gutouch/monitoring/service/MetricsService.java:257-274 | after counting one more log, each counter holds the number of logs so far in its bucket |
| MetricsLogs.TallyBucket | src/main/java/com/gutouch/monitoring/service/MetricsService.java:261-273 | counting a log raises a bucket's counter exactly when the log falls in that bucket |
| MetricsLogs.TallySum | src/main/java/com/gutouch/monitoring/service/MetricsService.java:258-259 | counting a log raises the counters' sum by one if it has a latency, and by nothing if it does not |
| MetricsLogs.TallyTotal | src/main/java/com/gutouch/monitoring/service/MetricsService.java:257-274 | the counters always add up to the number of logs so far that have a latency |
| MetricsLogs.LatencyDistribution | src/main/java/com/gutouch/monitoring/service/MetricsService.java:248-277 | six buckets in the fixed order "0-10ms" … ">200ms", each counting the logs whose latency falls in it, together counting every log with a latency |
| MetricsLogs.Labelled | src/main/java/com/gutouch/monitoring/service/MetricsService.java:249-255 | the buckets carry their fixed labels, in order, with the counts given |
| MetricsLogs.StatusBreakdown | src/main/java/com/gutouch/monitoring/service/MetricsService.java:282-289 | the keys are exactly the decimal texts of the status codes present |
| MetricsLogs.StatusBreakdownKeys | src/main/java/com/gutouch/monitoring/service/MetricsService.java:282-289 | a code's text is a key exactly when some log carries that code |
| MetricsLogs.StatusBreakdownCounts | src/main/java/com/gutouch/monitoring/service/MetricsService.java:285-288 | each key counts exactly the logs with that code |
| MetricsLogs.StatusBreakdownTotal | src/main/java/com/gutouch/monitoring/service/MetricsService.java:283-288 | the counts add up to the number of logs that have a status code |
| MetricsLogs.CalculatePercentile | src/main/java/com/gutouch/monitoring/service/MetricsService.java:390-399 | no values give 0; otherwise the result, when there is one, is the element of the ascending values at the slot ⌈p·n⌉ − 1 (at least 0), and the call fails exactly when that slot is past the end (a percentile above 1) |
| MetricsLogs.PercentileAtSlot | src/main/java/com/gutouch/monitoring/service/MetricsService.java:396-398 | for 0 < p ≤ 1 and at most 2³¹ − 1 values the slot lies inside the sorted values, the percentile is the sorted value there, and the slot is the one whose rank range (i, i + 1] holds p·n |
| MetricsLogs.OrderStatistic | src/main/java/com/gutouch/monitoring/service/MetricsService.java:393-398 | the element at index i of an ascending permutation of the values has fewer than x values below it and at least x at or below it, for any x in (i, i + 1] |
| MetricsLogs.PercentileRank | src/main/java/com/gutouch/monitoring/service/MetricsService.java:390-399 | for 0 < p ≤ 1 the percentile exists, fewer than p·n of the values lie below it, and at least p·n lie at or below it |
| MetricsLogs.PercentileSlotInRange | src/main/java/com/gutouch/monitoring/service/MetricsService.java:397-398 | for a percentile in (0, 1] the slot is in range and is the ceiling of p·n less one |
| MetricsLogs.PercentileAboveOneFails | src/main/java/com/gutouch/monitoring/service/MetricsService.java:397-398 | a percentile above 1 indexes past the end: one value at p = 2 fails |
| MetricsLogs.P95 | src/main/java/com/gutouch/monitoring/service/MetricsService.java:309-314 | the p95 of a non-empty group is `calculatePercentile` at 0.95: one of its latencies, with fewer than 0.95·n latencies below it and at least 0.95·n at or below it |
| MetricsLogs.SlowStats | src/main/java/com/gutouch/monitoring/service/MetricsService.java:300-321 | an endpoint's entry carries its path, the number of its logs, their mean latency, and as p95 the 0.95 percentile of their latencies, with fewer than 0.95·n latencies below it and at least 0.95·n at or below it |
| MetricsLogs.SlowGroups | src/main/java/com/gutouch/monitoring/service/MetricsService.java:295-322 | one entry per distinct path among the logs with a path and a latency, built from that path's logs |
| MetricsLogs.SlowGroupCounts | src/main/java/com/gutouch/monitoring/service/MetricsService.java:295-297 | each entry counts exactly the logs with its path and a latency, and at least one |
| MetricsLogs.SlowGroupsPartition | src/main/java/com/gutouch/monitoring/service/MetricsService.java:295-297 | the entries' counts add up to the number of logs with a path and a latency |
| MetricsLogs.SlowByLatency | src/main/java/com/gutouch/monitoring/service/MetricsService.java:323 | a permutation of the entries, in descending mean latency |
| MetricsLogs.TopSlowEndpoints | src/main/java/com/gutouch/monitoring/service/MetricsService.java:294-326 | a negative limit fails; otherwise the first min(limit, entries) entries, in descending mean latency, a sub-multiset of the grouping (no entry repeated) |
| MetricsLogs.TopSlowAreSlowest | src/main/java/com/gutouch/monitoring/service/MetricsService.java:323-324 | an entry left out is no slower than any entry kept |
| MetricsLogs.MostFrequent | src/main/java/com/gutouch/monitoring/service/MetricsService.java:342-348 | the chosen code is one of the candidates, and no candidate is more frequent |
| MetricsLogs.MostFrequentIsFirst | src/main/java/com/gutouch/monitoring/service/MetricsService.java:346 | among equally frequent codes the first in order wins |
| MetricsLogs.MostCommonStatusIsMode | src/main/java/com/gutouch/monitoring/service/MetricsService.java:342-348 | with no status codes the result is 500; otherwise it is a code some error carries, and no code is carried more often |
| MetricsLogs.LastSeen | src/main/java/com/gutouch/monitoring/service/MetricsService.java:350-353 | the last-seen time is one of the errors' timestamps and no error is later |
| MetricsLogs.ErrorStats | src/main/java/com/gutouch/monitoring/service/MetricsService.java:338-360 | an endpoint's entry carries its path, its number of errors, the most common status and the latest timestamp |
| MetricsLogs.ErrorGroups | src/main/java/com/gutouch/monitoring/service/MetricsService.java:332-361 | one entry per distinct path among the failed logs with a path |
| MetricsLogs.ErrorGroupCount | src/main/java/com/gutouch/monitoring/service/MetricsService.java:332-334 | each entry counts exactly the failed logs with its path, and at least one |
| MetricsLogs.ErrorGroupLastSeen | src/main/java/com/gutouch/monitoring/service/MetricsService.java:350-353 | an entry's last-seen time is the timestamp of one of its failed logs, and none of them is later |
| MetricsLogs.ErrorsByCount | src/main/java/com/gutouch/monitoring/service/MetricsService.java:362 | a permutation of the entries, in descending error count |
| MetricsLogs.TopErrorEndpoints | src/main/java/com/gutouch/monitoring/service/MetricsService.java:331-365 | a negative limit fails; otherwise the first min(limit, entries) entries, in descending count, a sub-multiset of the grouping (no entry repeated) |
| MetricsLogs.TopErrorsAreMostFrequent | src/main/java/com/gutouch/monitoring/service/MetricsService.java:362-363 | an entry left out has no more errors than any entry kept |
| TraceService.GetOrDefault | src/main/java/com/gutouch/monitoring/service/TraceService.java:107-113 | a present key gives its value and a missing key gives the fallback |
| TraceService.ParseLongOrNull | src/main/java/com/gutouch/monitoring/service/TraceService.java:196-203 | a parsed duration is a 64-bit value; missing or empty text gives null; other text gives exactly its `Long.parseLong` value, or null when that throws |
| TraceService.ParseLongOrNullDigits | src/main/java/com/gutouch/monitoring/service/TraceService.java:196-203 | an optional sign followed by digits reads as its value when it fits in 64 bits and as null otherwise |
| TraceService.ParseTimestamp | src/main/java/com/gutouch/monitoring/service/TraceService.java:173-185 | missing or empty text gives the current time; all-digit text gives its value as epoch milliseconds when it fits in a long and the current time otherwise; other text is parsed as an ISO instant, falling back to the current time |
| TraceService.ParseTimestampDigits | src/main/java/com/gutouch/monitoring/service/TraceService.java:173-185 | an all-digit timestamp gives its value when it fits in a long and the current time otherwise |
| TraceService.ParseTimestampRoundTrip | src/main/java/com/gutouch/monitoring/service/TraceService.java:177-178 | a millisecond timestamp written in decimal reads back as itself |
| TraceService.MapToTraceStep | src/main/java/com/gutouch/monitoring/service/TraceService.java:103-115 | a step carries the row's fields under their names: "service" falls back to "connector", "duration_ms" to "response_time_ms" and "message" to "message_content"; the status and duration are parsed, and there is no sequence number yet |
| TraceService.ServiceFallback | src/main/java/com/gutouch/monitoring/service/TraceService.java:107 | the service is the "service" field when present, otherwise the "connector" field, otherwise null |
| TraceService.SortSteps | src/main/java/com/gutouch/monitoring/service/TraceService.java:60-63 | a permutation of the steps in ascending timestamp order |
| TraceService.Numbered | src/main/java/com/gutouch/monitoring/service/TraceService.java:66-68 | each step gets its 1-based position as its sequence number and is otherwise unchanged |
| TraceService.NumberedUnnumbered | src/main/java/com/gutouch/monitoring/service/TraceService.java:66-68 | removing the numbers gives back the unnumbered steps |
| TraceService.Percentage | src/main/java/com/gutouch/monitoring/service/TraceService.java:130 | with a non-zero total the share times the total is 100 times the duration; with a zero total the share is +∞, −∞ or NaN according to the sign of the duration, as Java double division gives |
| TraceService.ThirtyPercent | src/main/java/com/gutouch/monitoring/service/TraceService.java:124-132 | with a positive total, a step is at the threshold exactly when ten times its duration is at least three times the total |
| TraceService.SuggestionRules | src/main/java/com/gutouch/monitoring/service/TraceService.java:154-168 | the advice is the notification advice when the service names "notification"; else the caching advice for steps over 1000 ms; else the major-bottleneck advice above 50 %; else the default advice; each exactly when its conditions hold |
| TraceService.LargerShareIsPreorder | src/main/java/com/gutouch/monitoring/service/TraceService.java:146-148 | ordering by descending share is a total preorder, so the stable sort is well defined |
| TraceService.DetectBottlenecks | src/main/java/com/gutouch/monitoring/service/TraceService.java:120-149 | a permutation of the steps with a duration at or above 30 % of the total, ordered by descending share |
| TraceService.BottleneckMembers | src/main/java/com/gutouch/monitoring/service/TraceService.java:126-144 | a bottleneck is listed exactly when it is built from some step that reaches the threshold |
| TraceService.BottlenecksDescending | src/main/java/com/gutouch/monitoring/service/TraceService.java:132-148 | with a positive total, listed shares are finite, descending and each at least 30 % |
| TraceService.ZeroTotal | src/main/java/com/gutouch/monitoring/service/TraceService.java:130-132 | with a zero total, exactly the steps with a positive duration are bottlenecks, at an infinite share |
| TraceService.OrderedSteps | src/main/java/com/gutouch/monitoring/service/TraceService.java:60-68 | one step per row, numbered 1, 2, … in ascending timestamp order |
| TraceService.OrderedStepsPermute | src/main/java/com/gutouch/monitoring/service/TraceService.java:60-63 | without their numbers, the ordered steps are a permutation of the parsed rows |
| TraceService.Outcome | src/main/java/com/gutouch/monitoring/service/TraceService.java:76-79 | the status is either "failure" or "success" |
| TraceService.OrderedStepsFail | src/main/java/com/gutouch/monitoring/service/TraceService.java:76-79 | some ordered step has failed exactly when some parsed row has failed |
| TraceService.Assemble | src/main/java/com/gutouch/monitoring/service/TraceService.java:70-98 | the trace keeps the steps it is given |
| TraceService.AssembleSpan | src/main/java/com/gutouch/monitoring/service/TraceService.java:71-73 | start and end are the first and last step times, every step lies between them, and the duration is their difference when it fits in a long |
| TraceService.BuildTrace | src/main/java/com/gutouch/monitoring/service/TraceService.java:58-98 | the trace's steps are the ordered steps of the rows |
| TraceService.BuildTraceSpan | src/main/java/com/gutouch/monitoring/service/TraceService.java:58-73 | the trace runs from its first step to its last, covers every step, and lasts end minus start when that fits in a long |
| TraceService.BuildTraceStatus | src/main/java/com/gutouch/monitoring/service/TraceService.java:75-79 | the status is "failure" exactly when some row has a status of 400 or more |
| TraceService.BottleneckNamesItsStep | src/main/java/com/gutouch/monitoring/service/TraceService.java:135-141 | every bottleneck names by sequence number a step with its duration and service |
| TraceService.StepIsBottleneck | src/main/java/com/gutouch/monitoring/service/TraceService.java:126-144 | a step is reported exactly when it has a duration and reaches 30 % of the total; with a positive total, exactly when ten times its duration is at least three times the total |
| TraceService.TraceByMessageId | src/main/java/com/gutouch/monitoring/service/TraceService.java:24-34 | no rows gives null; otherwise the trace is keyed by the message id, has no end-to-end id, and has one step per row |
| TraceService.TraceByEndToEndId | src/main/java/com/gutouch/monitoring/service/TraceService.java:40-53 | no rows gives null; otherwise the trace is keyed by the end-to-end id and takes its message id from the first row |
| BigtableRows.Get | src/main/java/com/gutouch/monitoring/service/BigtableService.java:382-394 | a column read gives its value when present and null when absent |
| BigtableRows.CellsOf | src/main/java/com/gutouch/monitoring/service/BigtableService.java:360 | a row's cells of one family are exactly the cells of that family |
| BigtableRows.PutCells | src/main/java/com/gutouch/monitoring/service/BigtableService.java:360-364 | writing cells keeps the earlier keys and adds every cell's column, and nothing else |
| BigtableRows.PutCellsLastWins | src/main/java/com/gutouch/monitoring/service/BigtableService.java:360-364 | when a column appears several times, its value is the last cell's |
| BigtableRows.PutCellsUntouched | src/main/java/com/gutouch/monitoring/service/BigtableService.java:360-364 | a column no cell names keeps its earlier value |
| BigtableRows.RowToMap | src/main/java/com/gutouch/monitoring/service/BigtableService.java:356-367 | the map always holds "row_key" and every column of the family |
| BigtableRows.RowToMapKeepsKey | src/main/java/com/gutouch/monitoring/service/BigtableService.java:358 | when no cell is named "row_key", the entry holds the row key |
| BigtableRows.ParseInteger | src/main/java/com/gutouch/monitoring/service/BigtableService.java:401-408 | missing or empty text gives null; other text gives what the decimal `int` parser gives, always a 32-bit integer |
| BigtableRows.ParseDouble | src/main/java/com/gutouch/monitoring/service/BigtableService.java:410-417 | missing or empty text gives null; other text gives what the decimal parser gives |
| BigtableRows.ParseIntegerRoundTrip | src/main/java/com/gutouch/monitoring/service/BigtableService.java:401-408 | the decimal text of any 32-bit integer parses back to it |
| BigtableRows.ParseDoubleValues | src/main/java/com/gutouch/monitoring/service/BigtableService.java:410-417 | the decimal text of an integer and a plain "digits.digits" numeral parse to their values |
| BigtableRows.ParseBoolean | src/main/java/com/gutouch/monitoring/service/BigtableService.java:419-422 | missing or empty text gives null; otherwise the value is true exactly when the text is "true" in any case |
| BigtableRows.DecodeLogEntry | src/main/java/com/gutouch/monitoring/service/BigtableService.java:372-395 | decoding succeeds exactly when the key's first '#'-segment parses as a long, which becomes the timestamp; the id is the key |
| BigtableRows.RowToLogEntry | src/main/java/com/gutouch/monitoring/service/BigtableService.java:372-381 | a decoded entry's id is its row key |
| BigtableRows.DecodeSegments | src/main/java/com/gutouch/monitoring/service/BigtableService.java:381-383 | with three or more segments, type and connector come from the second and third segments |
| BigtableRows.LogRowKeyRoundTrip | src/main/java/com/gutouch/monitoring/service/BigtableService.java:372-383 | a key built from a 13-digit time, a type, a connector and a suffix, none containing '#', decodes back to that time, type and connector |
| BigtableRows.LogRowKeySplit | src/main/java/com/gutouch/monitoring/service/BigtableService.java:377 | such a key splits on '#' into exactly its four parts |
| Decimal.ParseRoundTrip | src/main/java/com/gutouch/monitoring/service/MetricsService.java:433-449 | the decimal rendering of an in-range integer parses back to it |
| Decimal.ParseSignedDigits | src/main/java/com/gutouch/monitoring/service/MetricsService.java:433-449 | an optional sign followed by digits parses to its signed value exactly when that lies in the requested range |
| Decimal.IntToDecimalInjective | src/main/java/com/gutouch/monitoring/service/BigtableService.java:286 | different codes render to different texts |
| Decimal.Key13Digits | src/main/java/com/gutouch/monitoring/service/BigtableService.java:108-109 | for 0 ≤ ms < 10^13 the range key is exactly 13 digits that denote ms |
| Decimal.Key13Order | src/main/java/com/gutouch/monitoring/service/BigtableService.java:108-113 | range keys compare lexicographically as their times compare numerically |
| Decimal.LexOrderIsNumericOrder | src/main/java/com/gutouch/monitoring/service/BigtableService.java:108-113 | on digit strings of equal length, lexicographic order is numeric order |
| Decimal.RowKeyInScanRange | src/main/java/com/gutouch/monitoring/service/BigtableService.java:105-113 | a key of 13 digits and '#' lies in the scanned key range exactly when its time lies in [start, end) |
| Decimal.ParseDecimalOfInteger | src/main/java/com/gutouch/monitoring/service/MetricsService.java:424-431 | an integer's rendering parses as a double to the same value |
| Decimal.ParseDecimalFraction | src/main/java/com/gutouch/monitoring/service/MetricsService.java:424-431 | a literal "w.f" parses to w + f / 10^len(f) |
| BigtableScans.ScanRange | src/main/java/com/gutouch/monitoring/service/BigtableService.java:105-116 | the range scan returns rows of the store only |
| BigtableScans.Decoded | src/main/java/com/gutouch/monitoring/service/BigtableService.java:118-119 | the loop sees the decoded rows up to the first row whose key does not parse, where the exception ends the read |
| BigtableScans.Cap | src/main/java/com/gutouch/monitoring/service/BigtableService.java:132-137 | the loop stops after limit matches, and never before the first match |
| BigtableScans.CollectMatches | src/main/java/com/gutouch/monitoring/service/BigtableService.java:118-138 | the result is the first limit matches of the decoded rows |
| BigtableScans.StopEarly | src/main/java/com/gutouch/monitoring/service/BigtableService.java:134-136 | stopping at the end or once enough matches are kept leaves exactly the first matches |
| BigtableScans.CollectedMeaning | src/main/java/com/gutouch/monitoring/service/BigtableService.java:118-138 | the kept entries are in scan order, all match, number at most limit, and are all the matches when fewer |
| BigtableScans.SearchLogs | src/main/java/com/gutouch/monitoring/service/BigtableService.java:97-146 | the logs in the time range whose connector and type pass (null or "all" pass everything), in scan order, at most max(1, limit) of them, and all such logs when fewer |
| BigtableScans.DecodedTime | src/main/java/com/gutouch/monitoring/service/BigtableService.java:381 | a decoded entry's time is the number its 13-digit key prefix denotes |
| BigtableScans.ScannedKeyTime | src/main/java/com/gutouch/monitoring/service/BigtableService.java:105-113 | a scanned time-prefixed key has its time in [start, end) |
| BigtableScans.ScannedLogsInWindow | src/main/java/com/gutouch/monitoring/service/BigtableService.java:97-119 | every log the range scan decodes lies in [start, end) |
| BigtableScans.ErrorLogs | src/main/java/com/gutouch/monitoring/service/BigtableService.java:152-184 | the entries with success false (null excluded) whose connector passes, in scan order, at most max(1, limit) of them, and all such entries when fewer |
| BigtableScans.WindowMaps | src/main/java/com/gutouch/monitoring/service/BigtableService.java:71-84 | the kept metric maps all have a window time strictly inside (start, end), and each is the map of one of the rows read |
| BigtableScans.WindowMapsIsFilter | src/main/java/com/gutouch/monitoring/service/BigtableService.java:71-84 | when every window time parses, the loop is exactly the filter of the maps by the open window |
| BigtableScans.ConnectorMetrics | src/main/java/com/gutouch/monitoring/service/BigtableService.java:55-92 | every map lies strictly inside (start, end) and comes from a row whose key contains "#metrics#" + connector + "#"; when every such row's window time parses, the result is exactly the window filter of those rows' maps |
| BigtableScans.ConnectorWindowFilter | src/main/java/com/gutouch/monitoring/service/BigtableService.java:70-84 | when every window time of the connector's rows parses, no row ends the scan and the maps kept are exactly those inside the window |
| BigtableScans.Prefixed | src/main/java/com/gutouch/monitoring/service/BigtableService.java:229-233 | each message column is renamed with the prefix and keeps its value |
| BigtableScans.MessageColumnPrefixed | src/main/java/com/gutouch/monitoring/service/BigtableService.java:229-233 | a message-family column appears as "message_" + its name, with its last cell's value |
| BigtableScans.PrefixInjective | src/main/java/com/gutouch/monitoring/service/BigtableService.java:232 | prefixing keeps distinct column names distinct |
| BigtableScans.TimestampLeIsPreorder | src/main/java/com/gutouch/monitoring/service/BigtableService.java:242 | comparing steps by timestamp text is a total preorder |
| BigtableScans.MessageSteps | src/main/java/com/gutouch/monitoring/service/BigtableService.java:219-239 | exactly the steps whose messageId equals the argument |
| BigtableScans.TraceByMessageId | src/main/java/com/gutouch/monitoring/service/BigtableService.java:207-250 | a permutation of the message's steps, sorted by timestamp text when every step has one; the order is not promised otherwise |
| AnalyticsStats.TrafficLevel | src/main/java/com/gutouch/monitoring/service/AnalyticsService.java:156-161 | the level is one of "low", "medium", "high", "very_high" |
| AnalyticsStats.TrafficLevelBands | src/main/java/com/gutouch/monitoring/service/AnalyticsService.java:156-161 | low exactly below 100 requests, medium on [100, 500), high on [500, 1000), very_high from 1000 |
| AnalyticsStats.TrafficLevelMonotone | src/main/java/com/gutouch/monitoring/service/AnalyticsService.java:156-161 | more requests never give a lower level |
| AnalyticsStats.PercentileIndex | src/main/java/com/gutouch/monitoring/service/AnalyticsService.java:696-697 | the index, after the 32-bit cast and the clamp, is always within the list |
| AnalyticsStats.PercentileIndexIsRank | src/main/java/com/gutouch/monitoring/service/AnalyticsService.java:696 | for 0 < p ≤ 100 the index is the ceiling of p/100·n less one: the smallest index whose 1-based rank reaches p % |
| AnalyticsStats.PercentileIndexPlain | src/main/java/com/gutouch/monitoring/service/AnalyticsService.java:696-697 | the 32-bit cast never matters: the index is the clamped ceiling less one |
| AnalyticsStats.PercentileIndexMonotone | src/main/java/com/gutouch/monitoring/service/AnalyticsService.java:696-697 | a higher percentile never picks an earlier index |
| AnalyticsStats.Percentile | src/main/java/com/gutouch/monitoring/service/AnalyticsService.java:694-699 | an empty list gives 0; otherwise the result is one of the values |
| AnalyticsStats.PercentileBetween | src/main/java/com/gutouch/monitoring/service/AnalyticsService.java:694-699 | on a sorted list the result lies between the first and the last value |
| AnalyticsStats.PercentileMonotone | src/main/java/com/gutouch/monitoring/service/AnalyticsService.java:694-699 | on a sorted list a higher percentile never gives a smaller value |
| AnalyticsStats.SortReals | src/main/java/com/gutouch/monitoring/service/AnalyticsService.java:565-568 | the sorted latencies are a permutation of the latencies, in ascending order |
| AnalyticsStats.PercentChange | src/main/java/com/gutouch/monitoring/service/AnalyticsService.java:701-704 | from an old value of 0 the change is 100 when the new value is positive and 0 otherwise |
| AnalyticsStats.PercentChangeInverse | src/main/java/com/gutouch/monitoring/service/AnalyticsService.java:701-704 | from a non-zero old value, applying the change to the old value gives the new value back |
| AnalyticsStats.PercentDifference | src/main/java/com/gutouch/monitoring/service/AnalyticsService.java:706-710 | values averaging to 0 differ by 0 |
| AnalyticsStats.PercentDifferenceAntisymmetric | src/main/java/com/gutouch/monitoring/service/AnalyticsService.java:706-710 | swapping the two values negates the difference |
| AnalyticsStats.PercentDifferenceSign | src/main/java/com/gutouch/monitoring/service/AnalyticsService.java:706-710 | for a positive sum the difference is 0 exactly when the values are equal, and positive exactly when the first is larger |
| AnalyticsStats.ErrorRate | src/main/java/com/gutouch/monitoring/service/AnalyticsService.java:313-314 | an error rate is a percentage in [0, 100] |
| AnalyticsStats.SuccessPartition | src/main/java/com/gutouch/monitoring/service/AnalyticsService.java:236 | every log is either a success (flag true) or not (flag false or null) |
| AnalyticsPeriods.ConnectorFilter | src/main/java/com/gutouch/monitoring/service/AnalyticsService.java:666 | a missing connector asks for "all", and any other connector is passed on |
| AnalyticsPeriods.PeriodDates | src/main/java/com/gutouch/monitoring/service/AnalyticsService.java:749-766 | every period ends no later than now and spans 30 days for the month periods and 7 days otherwise |
| AnalyticsPeriods.PeriodsAdjacent | src/main/java/com/gutouch/monitoring/service/AnalyticsService.java:749-766 | last week ends where this week starts, "previous" where "current" starts, last month where this month starts; an unknown period is the current week |
| AnalyticsPeriods.TimeRange | src/main/java/com/gutouch/monitoring/service/AnalyticsService.java:778-804 | the range ends now and starts 1 h, 6 h, 7 days or 30 days earlier for those names, and 1 day earlier for "24h", "1d" and anything else |
| AnalyticsPeriods.PeriodMetricsOf | src/main/java/com/gutouch/monitoring/service/AnalyticsService.java:45-70 | the metrics exist exactly when every success flag is set (line 50 unboxes it); they carry the period's name and window, count the logs, give the mean latency with a missing latency as 0, and with no logs give error rate 0 and success rate 100 |
| AnalyticsPeriods.PeriodRates | src/main/java/com/gutouch/monitoring/service/AnalyticsService.java:49-59 | with logs, the error rate is the share of failures, the success rate the share of successes, and the two add to 100 |
| AnalyticsPeriods.FlaggedFailures | src/main/java/com/gutouch/monitoring/service/AnalyticsService.java:50-51 | when every flag is set, the logs not succeeding are exactly the failed ones |
| AnalyticsPeriods.Changes | src/main/java/com/gutouch/monitoring/service/AnalyticsService.java:72-84 | each change is measured from the second period to the first: applied to the second period's figure it gives the first's |
| AnalyticsPeriods.ChangeRecovers | src/main/java/com/gutouch/monitoring/service/AnalyticsService.java:701-704 | a change applied to a non-zero old value gives the new value |
| AnalyticsPeriods.ChangesOfSamePeriod | src/main/java/com/gutouch/monitoring/service/AnalyticsService.java:72-84 | a period compared with itself shows no change |
| AnalyticsPeriods.ComparePeriods | src/main/java/com/gutouch/monitoring/service/AnalyticsService.java:27-43 | the comparison exists exactly when both periods' logs all carry a success flag; it uses each period's dates and the changes between them |
| AnalyticsPeriods.ComparePeriodWithItself | src/main/java/com/gutouch/monitoring/service/AnalyticsService.java:27-43 | comparing a period with itself shows no change |
| AnalyticsPeriods.ConnectorMetricsOf | src/main/java/com/gutouch/monitoring/service/AnalyticsService.java:379-399 | the metrics count the logs; the mean latency reads a missing latency as 0; no logs give success 0 and error 100; otherwise the success rate is the percentage of logs whose success is `TRUE` and the error rate is the percentage of the others; the two always add up to 100 |
| AnalyticsPeriods.WinnerBySuccessCounts | src/main/java/com/gutouch/monitoring/service/AnalyticsService.java:414-417 | with logs on both sides the gateway wins on success rate exactly when its success count times the connector's log count exceeds the connector's success count times the gateway's log count |
| AnalyticsPeriods.PercentOrder | src/main/java/com/gutouch/monitoring/service/AnalyticsService.java:385 | two percentages `part * 100.0 / whole` compare as the cross products of their parts and wholes |
| AnalyticsPeriods.RateOrder | src/main/java/com/gutouch/monitoring/service/AnalyticsService.java:385 | any two values that are percentages of positive wholes compare as the cross products of their parts and wholes |
| AnalyticsPeriods.Compare | src/main/java/com/gutouch/monitoring/service/AnalyticsService.java:401-433 | the gateway wins exactly with a higher success rate, or an equal one and a strictly lower latency; the reason is the success rate exactly when the rates differ; the latency, error-rate and volume differences are the connector's percentage differences from the gateway |
| AnalyticsPeriods.WinnerNoWorse | src/main/java/com/gutouch/monitoring/service/AnalyticsService.java:414-426 | the winner's success rate is at least the loser's, and on equal rates its latency is no higher |
| AnalyticsPeriods.DifferencesFromGateway | src/main/java/com/gutouch/monitoring/service/AnalyticsService.java:404-409 | the volume and latency differences are positive exactly when the gateway's figure is larger, and zero exactly when the figures are equal |
| AnalyticsPeriods.ConnectorBreakdown | src/main/java/com/gutouch/monitoring/service/AnalyticsService.java:355-377 | each connector's metrics are those of its own logs in the range, with its share of the combined requests as a percentage (both 0 when there are none, adding to 100 otherwise), and the comparison is the one of those two metrics |
| AnalyticsPeriods.BreakdownOf | src/main/java/com/gutouch/monitoring/service/AnalyticsService.java:363-370 | both connectors keep their metrics and get their percentage of the combined requests (adding to 100, or both 0 with no requests), and the comparison is made on the metrics with those shares |
| AnalyticsPeriods.BreakdownSharesFollowVolume | src/main/java/com/gutouch/monitoring/service/AnalyticsService.java:363-368 | the connector with more requests never gets the smaller share: the shares compare exactly as the request counts do |
| AnalyticsPeriods.ShareOrder | src/main/java/com/gutouch/monitoring/service/AnalyticsService.java:365-368 | for any two connectors whose shares are their percentages of the combined requests, the shares compare exactly as the request counts do |
| AnalyticsTrends.Cell | src/main/java/com/gutouch/monitoring/service/AnalyticsService.java:121-131 | an hour cell carries its hour, counts exactly the logs of that day and hour, is labelled with the traffic level of that count, and gives their mean latency with a missing latency as 0 |
| AnalyticsTrends.HourCells | src/main/java/com/gutouch/monitoring/service/AnalyticsService.java:121-139 | the first n hours of a day, in order, each the cell of its hour |
| AnalyticsTrends.DayRowOf | src/main/java/com/gutouch/monitoring/service/AnalyticsService.java:114-146 | a day row has its date and 24 cells for hours 0 to 23 in order, each counting that hour's logs with the traffic level of that count and their mean latency |
| AnalyticsTrends.Heatmap | src/main/java/com/gutouch/monitoring/service/AnalyticsService.java:90-154 | exactly one row per requested day, oldest first, each with 24 hour cells counting that hour's logs, labelled with their traffic level and giving their mean latency |
| AnalyticsTrends.HourCellsTotal | src/main/java/com/gutouch/monitoring/service/AnalyticsService.java:121-139 | the first n cells of a day add up to the day's logs before hour n |
| AnalyticsTrends.DayTotal | src/main/java/com/gutouch/monitoring/service/AnalyticsService.java:121-139 | a day's 24 cells add up to the day's logs |
| AnalyticsTrends.HeatmapRowTotal | src/main/java/com/gutouch/monitoring/service/AnalyticsService.java:114-146 | each heatmap row adds up to the logs of its day |
| AnalyticsTrends.MetricValue | src/main/java/com/gutouch/monitoring/service/AnalyticsService.java:303-318 | "requests" gives the log count, "latency" the mean latency with a missing latency as 0, "errorRate" the percentage of logs not succeeding, and any unknown metric 0 |
| AnalyticsTrends.LatencyMetricBounds | src/main/java/com/gutouch/monitoring/service/AnalyticsService.java:307-311 | the "latency" metric lies within any bounds that every log's latency (null read as 0) respects |
| AnalyticsTrends.Trends | src/main/java/com/gutouch/monitoring/service/AnalyticsService.java:263-290 | exactly one point per requested day, oldest first, each the metric over that day's logs |
| AnalyticsTrends.TrendMatchesHeatmap | src/main/java/com/gutouch/monitoring/service/AnalyticsService.java:306 | a day's request trend equals the sum of its heatmap row |
| AnalyticsTrends.Min | src/main/java/com/gutouch/monitoring/service/AnalyticsService.java:332 | the minimum is one of the values and no value is smaller |
| AnalyticsTrends.Max | src/main/java/com/gutouch/monitoring/service/AnalyticsService.java:333 | the maximum is one of the values and no value is larger |
| AnalyticsTrends.Insights | src/main/java/com/gutouch/monitoring/service/AnalyticsService.java:320-349 | no points give all zeros; otherwise the average is the mean of the point values, min and max are attained values bounding every point, the average lies between them, and the trend is the change from the first to the last point |
| AnalyticsTrends.ShiftedAverage | src/main/java/com/gutouch/monitoring/service/AnalyticsService.java:331 | raising every point by c raises the average by c |
| AnalyticsTrends.ShiftedExtremes | src/main/java/com/gutouch/monitoring/service/AnalyticsService.java:332-333 | raising every point by c raises the minimum and the maximum by c |
| AnalyticsTop.ClientStatsOf | src/main/java/com/gutouch/monitoring/service/AnalyticsService.java:231-250 | a client's entry carries its address, its request count, its errors (flag not true) and their percentage, its mean latency and the connector label |
| AnalyticsTop.ClientGroups | src/main/java/com/gutouch/monitoring/service/AnalyticsService.java:227-251 | one entry per distinct client, null addresses grouped as "unknown" |
| AnalyticsTop.ClientGroupsPartition | src/main/java/com/gutouch/monitoring/service/AnalyticsService.java:227-228 | the clients are distinct, every log has its client's entry, and the request counts add up to the number of logs |
| AnalyticsTop.ClientsDistinct | src/main/java/com/gutouch/monitoring/service/AnalyticsService.java:227-228 | no client appears twice |
| AnalyticsTop.ClientsCover | src/main/java/com/gutouch/monitoring/service/AnalyticsService.java:227-228 | every log's client has an entry |
| AnalyticsTop.ClientRequestsAreSizes | src/main/java/com/gutouch/monitoring/service/AnalyticsService.java:227-235 | the request counts, client by client, are the sizes of the groups of logs by client address |
| AnalyticsTop.ClientRequestsCount | src/main/java/com/gutouch/monitoring/service/AnalyticsService.java:235 | each entry counts exactly its client's logs, and at least one |
| AnalyticsTop.ClientsByRequests | src/main/java/com/gutouch/monitoring/service/AnalyticsService.java:252 | a permutation of the entries in descending request count |
| AnalyticsTop.TopClients | src/main/java/com/gutouch/monitoring/service/AnalyticsService.java:221-257 | a negative limit fails; otherwise the first min(limit, clients) entries, by descending request count, a sub-multiset of the grouping (no client repeated) |
| AnalyticsTop.TopClientsAreBusiest | src/main/java/com/gutouch/monitoring/service/AnalyticsService.java:252-253 | a client left out has no more requests than any client kept |
| AnalyticsTop.SortedLatencies | src/main/java/com/gutouch/monitoring/service/AnalyticsService.java:565-568 | the latencies (null read as 0) sorted ascending, a permutation of the group's |
| AnalyticsTop.SplitEndpoint | src/main/java/com/gutouch/monitoring/service/AnalyticsService.java:557-559 | the method part holds no space; the endpoint is method, space, path when it has a space, and the whole text with an empty path otherwise |
| AnalyticsTop.EndpointRoundTrip | src/main/java/com/gutouch/monitoring/service/AnalyticsService.java:547-559 | a key "METHOD path" (defaults GET and /unknown) splits back into the same method and path |
| AnalyticsTop.EndpointStatsOf | src/main/java/com/gutouch/monitoring/service/AnalyticsService.java:553-585 | an endpoint's entry carries its method and path, request count, errors and their percentage, and p95 and p99 latencies that are latencies of its logs |
| AnalyticsTop.EndpointMeanLatency | src/main/java/com/gutouch/monitoring/service/AnalyticsService.java:570 | the average latency is the mean over the group, null read as 0 |
| AnalyticsTop.EndpointPercentilesOrdered | src/main/java/com/gutouch/monitoring/service/AnalyticsService.java:571-572 | the p95 latency never exceeds the p99 latency |
| AnalyticsTop.EndpointGroups | src/main/java/com/gutouch/monitoring/service/AnalyticsService.java:546-585 | one entry per distinct "METHOD path" key |
| AnalyticsTop.EndpointGroupsPartition | src/main/java/com/gutouch/monitoring/service/AnalyticsService.java:546-561 | every entry counts at least one request, and the counts add up to the number of logs |
| AnalyticsTop.EndpointsByKey | src/main/java/com/gutouch/monitoring/service/AnalyticsService.java:586-588 | a permutation of the entries, descending by mean latency for "slowest" and by error count otherwise |
| AnalyticsTop.TopEndpoints | src/main/java/com/gutouch/monitoring/service/AnalyticsService.java:539-596 | a negative limit fails; otherwise the report keeps its type and the first min(limit, endpoints) entries in that order, a sub-multiset of the grouping (no endpoint repeated) |
| AnalyticsTop.TopEndpointsRankFirst | src/main/java/com/gutouch/monitoring/service/AnalyticsService.java:586-589 | an endpoint left out ranks no higher than any endpoint kept |
| AnalyticsStatus.CategoryOfCode | src/main/java/com/gutouch/monitoring/service/AnalyticsService.java:619-620 | a code of 0 to 999 goes to its hundreds digit followed by "xx", so 2xx to 5xx for those classes, and a missing code (read as 0) goes to "0xx" |
| AnalyticsStatus.Share | src/main/java/com/gutouch/monitoring/service/AnalyticsService.java:632 | with no logs a share is 0; otherwise the share times the total is 100 times the count |
| AnalyticsStatus.CategoryKeys | src/main/java/com/gutouch/monitoring/service/AnalyticsService.java:610-624 | the keys include 2xx to 5xx, are distinct, and include every log's category |
| AnalyticsStatus.Categories | src/main/java/com/gutouch/monitoring/service/AnalyticsService.java:626-634 | each category counts exactly the logs in it, with its share of all logs |
| AnalyticsStatus.CategoriesPartition | src/main/java/com/gutouch/monitoring/service/AnalyticsService.java:610-624 | the four fixed categories are always present and the counts add up to the number of logs |
| AnalyticsStatus.StatusDescription | src/main/java/com/gutouch/monitoring/service/AnalyticsService.java:678-692 | a listed code gets its description and every other code gets "Unknown" |
| AnalyticsStatus.CodeCounts | src/main/java/com/gutouch/monitoring/service/AnalyticsService.java:616-623 | one entry per distinct code, counting the logs with that code, with its percentage of all the logs and its description |
| AnalyticsStatus.ByCount | src/main/java/com/gutouch/monitoring/service/AnalyticsService.java:636-637 | a permutation of the code entries in descending count |
| AnalyticsStatus.TopCodes | src/main/java/com/gutouch/monitoring/service/AnalyticsService.java:636-645 | exactly min(5, distinct codes) codes, a sub-multiset of the per-code counts, in descending count, each with its true count, its percentage of all the logs and its description |
| AnalyticsStatus.TopFromCounts | src/main/java/com/gutouch/monitoring/service/AnalyticsService.java:636-645 | the first five sorted entries keep the counts and descriptions of the code entries |
| AnalyticsStatus.TopCodesAreMostFrequent | src/main/java/com/gutouch/monitoring/service/AnalyticsService.java:636-638 | a code left out is no more frequent than any code kept |
| AnalyticsStatus.StatusDistribution | src/main/java/com/gutouch/monitoring/service/AnalyticsService.java:647-654 | the result has a single key: the connector, or "all" when none is given |
| AnalyticsStatus.StatusDistributionReport | src/main/java/com/gutouch/monitoring/service/AnalyticsService.java:602-655 | the fixed categories are present, their counts add up to the number of logs, and the top codes number min(5, distinct codes) in descending count with their true counts |
| AnalyticsAnomalies.HourOf | src/main/java/com/gutouch/monitoring/service/AnalyticsService.java:447-450 | a log's hour is the whole hour that contains its time |
| AnalyticsAnomalies.HourRates | src/main/java/com/gutouch/monitoring/service/AnalyticsService.java:712-717 | one error rate per hour group, in the order of the groups, and at least one exactly when there are logs |
| AnalyticsAnomalies.AverageErrorRate | src/main/java/com/gutouch/monitoring/service/AnalyticsService.java:712-720 | with logs, the mean of the hourly error rates, each hour weighing the same; 0 with no logs; always a percentage |
| AnalyticsAnomalies.UniformHourlyRate | src/main/java/com/gutouch/monitoring/service/AnalyticsService.java:712-720 | when every hour has the same error rate, the average is that rate, however many logs each hour holds |
| AnalyticsAnomalies.HourFindings | src/main/java/com/gutouch/monitoring/service/AnalyticsService.java:457-495 | an hour yields an error-rate finding exactly when its rate exceeds twice the mean and 5 %, and a latency finding exactly when its latency exceeds twice the mean and 100 ms; nothing else |
| AnalyticsAnomalies.DetectAnomalies | src/main/java/com/gutouch/monitoring/service/AnalyticsService.java:439-499 | a permutation of every hour's findings, newest hour first |
| AnalyticsAnomalies.NewestFirst | src/main/java/com/gutouch/monitoring/service/AnalyticsService.java:497 | the anomalies are ordered by descending hour |
| AnalyticsAnomalies.DetectedMembers | src/main/java/com/gutouch/monitoring/service/AnalyticsService.java:457-495 | an anomaly is reported exactly when it is a finding of some hour |
| AnalyticsAnomalies.ErrorRateFlagged | src/main/java/com/gutouch/monitoring/service/AnalyticsService.java:468-480 | an hour's error-rate anomaly is reported exactly when the hour has logs and its rate exceeds twice the mean and 5 % |
| AnalyticsAnomalies.LatencyFlagged | src/main/java/com/gutouch/monitoring/service/AnalyticsService.java:482-494 | an hour's latency anomaly is reported exactly when the hour has logs and its latency exceeds twice the mean and 100 ms |
| AnalyticsAnomalies.FindingsAreJustified | src/main/java/com/gutouch/monitoring/service/AnalyticsService.java:468-494 | every anomaly carries its hour's value and twice the mean as threshold, exceeds both, and is critical exactly above 10 % (error rate) or 200 ms (latency) |
| AnalyticsAnomalies.OneFindingPerMetric | src/main/java/com/gutouch/monitoring/service/AnalyticsService.java:468-494 | an hour has at most one anomaly per metric |
| LogService.QueryCaseIrrelevant | src/main/java/com/gutouch/monitoring/service/LogService.java:134-149 | the query is lower-cased before matching, so its case never changes which logs match |
| LogService.ClientIpCaseSensitive | src/main/java/com/gutouch/monitoring/service/LogService.java:141-143 | only the query is lower-cased, so a client address that contains an upper-case letter never matches a query equal to it |
| LogService.StatusClassMatches | src/main/java/com/gutouch/monitoring/service/LogService.java:153-159 | a status ending in "xx" keeps the logs whose code starts with its first character, that is, whose hundreds digit is that digit |
| LogService.ExactStatusMatches | src/main/java/com/gutouch/monitoring/service/LogService.java:160-165 | any other non-empty status keeps exactly the logs whose code prints as that text |
| LogService.FilterRejections | src/main/java/com/gutouch/monitoring/service/LogService.java:152-193 | a status filter drops logs without a code; a latency bound drops logs without a latency; a kept log lies within both latency bounds and has the requested success flag and exact client address |
| LogService.SortLogs | src/main/java/com/gutouch/monitoring/service/LogService.java:46-59 | a permutation of the logs, ascending or (for "desc") descending by latency (null read as 0) for "latency" and by time otherwise |
| LogService.Paginate | src/main/java/com/gutouch/monitoring/service/LogService.java:62-69 | a page never holds more logs than were found |
| LogService.PaginateSlice | src/main/java/com/gutouch/monitoring/service/LogService.java:62-69 | page p of size n is the slice from (p-1)n up to (p-1)n+n, clipped to the list and empty past its end, and never longer than n |
| LogService.NonPositivePageFails | src/main/java/com/gutouch/monitoring/service/LogService.java:63-69 | a page of 0 or less with a positive limit, whose start (page − 1)·limit does not wrap, gives no page: `subList` throws on the negative start |
| LogService.PageStart | src/main/java/com/gutouch/monitoring/service/LogService.java:63-64 | the start offset is non-negative and one page before the end offset |
| LogService.PagesIsCeiling | src/main/java/com/gutouch/monitoring/service/LogService.java:78 | the page count is the ceiling of total over limit: enough pages for every log, and one fewer would not be |
| LogService.Latencies | src/main/java/com/gutouch/monitoring/service/LogService.java:216-218 | exactly the latencies of the logs that have one, in log order |
| LogService.LatenciesWithin | src/main/java/com/gutouch/monitoring/service/LogService.java:216-218 | every collected latency lies within bounds that every log's latency respects |
| LogService.CalculateSummary | src/main/java/com/gutouch/monitoring/service/LogService.java:201-231 | no logs give all zeros; the success rate is the percentage of logs whose success flag is true, the error count is the number whose flag is false, the mean latency is the mean of the present latencies, and errors plus successes never exceed the logs |
| LogService.SummaryLatencyBounds | src/main/java/com/gutouch/monitoring/service/LogService.java:216-220 | the average latency lies within bounds that every log's latency respects, when some log has one |
| LogService.SliceKeeps | src/main/java/com/gutouch/monitoring/service/LogService.java:41-69 | every log on any page of the sorted list passes the filters |
| LogService.Respond | src/main/java/com/gutouch/monitoring/service/LogService.java:62-81 | the response carries the number of matches, their summary, the page count and the requested page of the sorted matches, every one of which passes the filters; a page whose offset overflows fails; a page of 0 or less with a positive limit fails, as its negative start makes `subList` throw (`LogService.NonPositivePageFails`) |
| LogService.SearchLogs | src/main/java/com/gutouch/monitoring/service/LogService.java:24-82 | the search reads the window (end now, start a day earlier when absent) from the store, keeps the logs that pass every filter, and answers with their count, summary, page count and the requested sorted page |
| Display.BandOf | monitoring-frontend/src/utils/formatters.js:56-62 | a status code falls into exactly one band: 2xx, 3xx, 4xx, 500 and above, or below 200 |
| Display.LatencyReading | monitoring-dashboard-frontend-completee/src/utils/helpers.js:80-85 | no latency shows a dash; below 1 ms it reads in microseconds, from 1000 ms in seconds, otherwise in milliseconds, each reading the same duration |
| Display.LatencyAmountInRange | monitoring-dashboard-frontend-completee/src/utils/helpers.js:82-84 | a non-negative latency shows an amount from 1 (0 for microseconds) up to below 1000 (any for seconds) |
| Display.LatencyUnitMonotone | monitoring-dashboard-frontend-completee/src/utils/helpers.js:82-84 | a larger latency never shows in a smaller unit |
| Helpers.TimeRangeDates | monitoring-dashboard-frontend-completee/src/utils/helpers.js:30-55 | the window ends now and starts before it |
| Helpers.TimeRangeMatchesBackend | monitoring-dashboard-frontend-completee/src/utils/helpers.js:30-55 | the window starts where the backend's window for the same range starts, an unknown range counting as one hour (days taken as 24 hours on both sides) |
| Helpers.FormatLatency | monitoring-dashboard-frontend-completee/src/utils/helpers.js:80-85 | a dash exactly for no latency; otherwise the reading of that duration, in microseconds exactly below 1 ms and in seconds exactly from 1000 ms, with 2 decimals for milli- and seconds and none for microseconds |
| Helpers.LatencyFormatsAgree | monitoring-dashboard-frontend-completee/src/utils/helpers.js:80-85 | the two formatLatency helpers agree on unit and amount, and differ only in the millisecond decimals |
| Helpers.StatusFromUptime | monitoring-dashboard-frontend-completee/src/utils/helpers.js:113-117 | healthy exactly from 99.9 %, down exactly below 95 %, degraded otherwise |
| Helpers.StatusFromErrorRate | monitoring-dashboard-frontend-completee/src/utils/helpers.js:122-126 | healthy exactly below 1 %, down exactly from 5 %, degraded otherwise |
| Helpers.StatusesMonotone | monitoring-dashboard-frontend-completee/src/utils/helpers.js:113-126 | more uptime never worsens the status and a higher error rate never improves it |
| Helpers.StatusClass | monitoring-dashboard-frontend-completee/src/utils/helpers.js:131-139 | a CSS class of the table: the success, warning and danger classes exactly for healthy, degraded and down, and the unknown one for any other status |
| Helpers.StatusText | monitoring-dashboard-frontend-completee/src/utils/helpers.js:144-152 | a label of the table: "Opérationnel", "Dégradé" and "Hors ligne" exactly for healthy, degraded and down, and "Inconnu" for any other status |
| Helpers.ClassAndTextAgree | monitoring-dashboard-frontend-completee/src/utils/helpers.js:131-152 | two statuses share a class exactly when they share a text |
| Helpers.ComputedStatusIsKnown | monitoring-dashboard-frontend-completee/src/utils/helpers.js:113-152 | a status computed from uptime or error rate never shows as unknown |
| Helpers.StatusCodeColor | monitoring-dashboard-frontend-completee/src/utils/helpers.js:157-163 | success exactly for 2xx, warning exactly for 4xx, danger exactly from 500, secondary exactly below 200, and info for 3xx |
| Helpers.StatusCodeColorByBand | monitoring-dashboard-frontend-completee/src/utils/helpers.js:157-163 | two codes share a colour exactly when they fall into the same band |
| Helpers.TranslateIdempotent | monitoring-dashboard-frontend-completee/src/utils/helpers.js:178 | a lookup table whose values are not keys gives the same result when applied twice |
| Helpers.ConnectorFullName | monitoring-dashboard-frontend-completee/src/utils/helpers.js:172-179 | a known connector gets its different full name and any other text is returned unchanged |
| Helpers.ConnectorFullNameIdempotent | monitoring-dashboard-frontend-completee/src/utils/helpers.js:172-179 | naming a full name again leaves it unchanged |
| Helpers.LogTypeLabel | monitoring-dashboard-frontend-completee/src/utils/helpers.js:229-239 | a known log type gets its different label and any other text is returned unchanged |
| Helpers.LogTypeLabelIdempotent | monitoring-dashboard-frontend-completee/src/utils/helpers.js:229-239 | labelling a label again leaves it unchanged |
| Helpers.ExtractShortPath | monitoring-dashboard-frontend-completee/src/utils/helpers.js:244-247 | a missing or empty path shows a dash; otherwise the longest prefix without '?', ending just before the first '?' |
| Helpers.ShortPathDropsQuery | monitoring-dashboard-frontend-completee/src/utils/helpers.js:244-247 | a path followed by a query string shows as the path alone, and a path without one unchanged |
| Helpers.IsValidIPMatchesPattern | monitoring-dashboard-frontend-completee/src/utils/helpers.js:288-291 | the validator accepts exactly four groups of one to three digits separated by dots |
| Helpers.DigitGroupsAccepted | monitoring-dashboard-frontend-completee/src/utils/helpers.js:289 | any four groups of one to three digits joined by dots are accepted |
| Helpers.OutOfRangeAddressAccepted | monitoring-dashboard-frontend-completee/src/utils/helpers.js:289 | the pattern checks digit counts only, so 999.999.999.999 passes |
| Formatters.FormatLatency | monitoring-frontend/src/utils/formatters.js:41-46 | a dash exactly for no latency; otherwise the reading of that duration, in microseconds exactly below 1 ms and in seconds exactly from 1000 ms, with 2 decimals for seconds and none otherwise |
| Formatters.HueInjective | monitoring-frontend/src/utils/formatters.js:56-70 | each band has its own hue |
| Formatters.StatusColor | monitoring-frontend/src/utils/formatters.js:56-62 | "text-green-400" exactly for 2xx, "text-blue-400" exactly for 3xx, "text-yellow-400" exactly for 4xx, "text-red-400" exactly from 500, "text-gray-400" exactly below 200 |
| Formatters.StatusBadgeColor | monitoring-frontend/src/utils/formatters.js:64-70 | "bg-green-500/20 text-green-400 border-green-500/50" exactly for 2xx, and likewise with blue for 3xx, yellow for 4xx, red from 500 and gray below 200 |
| Formatters.TextClassInjective | monitoring-frontend/src/utils/formatters.js:56-62 | different hues give different text classes |
| Formatters.BadgeClassesInjective | monitoring-frontend/src/utils/formatters.js:64-70 | different hues give different badge classes |
| Formatters.BadgeCarriesTextColor | monitoring-frontend/src/utils/formatters.js:56-70 | a code's badge contains its text colour class |
| Formatters.ColorAndBadgeAgree | monitoring-frontend/src/utils/formatters.js:56-70 | two codes share a colour, and a badge, exactly when they fall into the same band |
| Formatters.HealthStatus | monitoring-frontend/src/utils/formatters.js:78-82 | healthy exactly from 99 %, critical exactly below 95 %, degraded otherwise |
| Formatters.HealthColor | monitoring-frontend/src/utils/formatters.js:72-76 | one of green, yellow or red |
| Formatters.HealthColorMatchesStatus | monitoring-frontend/src/utils/formatters.js:72-82 | green exactly when healthy, yellow exactly when degraded, red exactly when critical |
| Formatters.TrendIcon | monitoring-frontend/src/utils/formatters.js:84-88 | an up arrow exactly for a rise, a down arrow exactly for a fall, a bar exactly for no change |
| Formatters.TrendColor | monitoring-frontend/src/utils/formatters.js:90-95 | grey exactly for no change; green exactly for the good direction (a fall when inverted) and red exactly for the bad one |
| Formatters.TrendColorInverse | monitoring-frontend/src/utils/formatters.js:90-95 | an inverted colour is the plain colour of the negated change |
| Formatters.TrendColorFollowsIcon | monitoring-frontend/src/utils/formatters.js:84-95 | without inversion, green goes with the up arrow, red with the down arrow and grey with the bar |
| LogsPage.TypeBadgeClass | monitoring-dashboard-frontend/src/pages/LogsPage.js:497-505 | outgoing calls, authentication and processing each get their own class, and everything else "info" |
| LogsPage.StatusClass | monitoring-dashboard-frontend/src/pages/LogsPage.js:507-513 | success exactly for 2xx, warning exactly for 4xx, error exactly from 500, and info for everything else, a missing code included |
| LogsPage.StatusClassByBand | monitoring-dashboard-frontend/src/pages/LogsPage.js:507-513 | two codes share a class exactly when they share a band, redirects and codes below 200 sharing "info" |
| LogsPage.LatencyClass | monitoring-dashboard-frontend/src/pages/LogsPage.js:515-520 | no class exactly for a missing or zero latency, good exactly below 100 ms, bad exactly from 500 ms |
| LogsPage.LatencyClassMonotone | monitoring-dashboard-frontend/src/pages/LogsPage.js:515-520 | a slower call never gets a better class |
| LogsPage.TruncatePath | monitoring-dashboard-frontend/src/pages/LogsPage.js:522-526 | a missing or empty path shows a dash; a path of at most 50 characters shows unchanged, a longer one as its first 47 characters and "..." |
| LogsPage.TruncatePathIdempotent | monitoring-dashboard-frontend/src/pages/LogsPage.js:522-526 | truncating a shown path again changes nothing |
| LogsPage.TruncateId | monitoring-dashboard-frontend/src/pages/LogsPage.js:528-532 | a missing or empty id shows a dash; an id of at most 12 characters shows unchanged, a longer one as its first 12 characters and "..." |
| LogsPage.TruncateIdProperties | monitoring-dashboard-frontend/src/pages/LogsPage.js:528-532 | truncating a shown id again changes nothing, and long ids sharing their first 12 characters show alike |
| FilterState.FilterChange | monitoring-dashboard-frontend/src/pages/LogsPage.js:79-81 | the key takes the value, the page becomes 1 (even when the key is the page), and every other property stays |
| FilterState.PageChange | monitoring-dashboard-frontend/src/pages/LogsPage.js:83-85 | the page takes the value and every other property stays |
| FilterState.Params | monitoring-dashboard-frontend/src/pages/LogsPage.js:44-51 | a property is sent exactly when its value is not '', null or 'all', and is sent unchanged |
| FilterState.ParamsIdempotent | monitoring-dashboard-frontend/src/pages/LogsPage.js:47-51 | cleaning sent parameters again changes nothing |
| FilterState.ParamsInitial | monitoring-dashboard-frontend/src/pages/LogsPage.js:17-31 | the initial and reset filters send only page 1, limit 50 and newest-first by time |
| FilterState.ClearedCriterionDropped | monitoring-dashboard-frontend/src/pages/LogsPage.js:79-81 | clearing a criterion removes it from the request, sends page 1 and keeps the rest |
| FilterState.SetCriterionSent | monitoring-dashboard-frontend/src/pages/LogsPage.js:79-81 | setting a criterion sends its value on page 1 and keeps the rest |
| LogsExplorer.TotalPages | monitoring-frontendd/src/pages/LogsExplorer.jsx:43 | the page count is the ceiling of total over limit: enough pages for every entry, and none for no entries |
| LogsExplorer.TotalPagesLeast | monitoring-frontendd/src/pages/LogsExplorer.jsx:43 | no smaller page count holds every entry |
| LogsExplorer.PageWindow | monitoring-frontendd/src/pages/LogsExplorer.jsx:379-389 | min(5, pages) consecutive page numbers, all within the pages, including the current page when it is one |
| LogsExplorer.PageWindowCentred | monitoring-frontendd/src/pages/LogsExplorer.jsx:387-388 | away from both ends the current page is the middle button |
| LogsExplorer.PrevTarget | monitoring-frontendd/src/pages/LogsExplorer.jsx:371 | previous leads one page back, never before page 1 |
| LogsExplorer.NextTarget | monitoring-frontendd/src/pages/LogsExplorer.jsx:409 | next leads one page on, never past the last page |
| LogsExplorer.ClickAsWritten | monitoring-frontendd/src/pages/LogsExplorer.jsx:45-51 | a button press adds the page property and keeps every other property |
| LogsExplorer.ButtonsAlwaysGoToFirstPage | monitoring-frontendd/src/pages/LogsExplorer.jsx:371-409 | every page button, as written, lands on page 1 |
| LogsExplorer.NextFromFirstPageStays | monitoring-frontendd/src/pages/LogsExplorer.jsx:45-51 | from page 1 of 3 the next target is 2, yet the page shown stays 1 |
| LogsExplorer.Click | monitoring-frontendd/src/pages/LogsExplorer.jsx:371-409 | the intended press sets the page to its target and keeps every other property |
| LogsExplorer.ClickNavigates | monitoring-frontendd/src/pages/LogsExplorer.jsx:371-409 | with the intended press, next then previous returns to the same page, a numbered button lands on its number, and the other parameters sent stay the same |
| LogsExplorer.SizeAlwaysOffered | monitoring-frontendd/src/pages/LogsExplorer.jsx:328-337 | the page size is always one the select offers, from the start and after any update, so the page count is never a division by zero |
| DataAdapter.HeadlineOf | monitoring-frontendd/src/utils/dataAdapter.js:7-19 | the headline copies every backend total (requests, rates, mean and percentile latencies) and reports every change as 0 |
| DataAdapter.CardOf | monitoring-frontendd/src/utils/dataAdapter.js:22-30 | a card keeps the service name, its status in upper case (same letters up to case, no lower-case letter left), its uptime, rate, mean latency and error rate, and estimates p95 as 1.5 times the mean latency |
| DataAdapter.DistributionOf | monitoring-frontendd/src/utils/dataAdapter.js:40-45 | no totals give an all-zero distribution; otherwise each type gets the floor of its share (45 %, 38 %, 12 %, 5 %) of the total |
| DataAdapter.DistributionAccountsForTotal | monitoring-frontendd/src/utils/dataAdapter.js:40-45 | the four floored shares add up to the total, short by less than 4, and are ordered as their shares |
| DataAdapter.AdaptBackendResponse | monitoring-frontendd/src/utils/dataAdapter.js:3-53 | no data gives none; otherwise totals become the headline, every service a card in order, every timeline point a point in order, and the distribution follows the totals |
| DataAdapter.Find | monitoring-frontendd/src/utils/dataAdapter.js:59 | the first service with the name, or none when no service has it |
| DataAdapter.BreakdownAccountsForHour | monitoring-frontendd/src/utils/dataAdapter.js:75-79 | the three floored status shares of an hour of requests add up to it, short by less than 3, and are ordered as their shares |
| DataAdapter.PercentilesOf | monitoring-frontendd/src/utils/dataAdapter.js:81-86 | p50, p90, p95 and p99 are 1, 1.3, 1.5 and 2 times the mean, so a non-negative mean gives ordered percentiles |
| DataAdapter.AdaptConnectorDetails | monitoring-frontendd/src/utils/dataAdapter.js:56-88 | none exactly for no data, no services or no service of that name; otherwise the first such service's metrics, breakdown and percentiles, and one timeline point per backend point with that connector's requests and no errors |
| DataAdapter.DetailsAgreeWithOverview | monitoring-frontendd/src/utils/dataAdapter.js:56-74 | for a known connector the detail metrics equal its dashboard card's, and the detail timeline counts equal the matching column of the dashboard timeline |

## Left out

- Bigtable client I/O, Spring configuration, controllers and caching. Store reads become an input sequence of rows in key order, and a read error, which the source swallows, is not modelled.
- The store's own row limit (`Query.limit`) is not modelled. The scans model only the filter-and-limit loop that runs after the read.
- The clock is a parameter. So is `TraceService.parseTimestamp`'s fallback to the current time, and ISO-8601 parsing is the parameter `parseIso`.
- Time zones, daylight saving and `DateTimeFormatter` day keys are parameters (`local`, `dayKeyAgo`). The day-of-week names are not modelled.
- `MetricsService.getOverviewMetrics` (src/main/java/com/gutouch/monitoring/service/MetricsService.java:25-56) and `getConnectorDetails` (58-114) are left out. They only read two windows and hand them to the modelled calculations.
- `buildEmptyConnectorDetails` (404-422) is left out: it builds a constant record.
- `BigtableService.getLogById` (src/main/java/com/gutouch/monitoring/service/BigtableService.java:189-202) and `LogService.getLogDetail` and `getErrorLogs` (src/main/java/com/gutouch/monitoring/service/LogService.java:88-127) are left out. They read one row or delegate. Their parse helpers (236-258) are identical to BigtableService's, which `BigtableRows.ParseInteger`, `ParseDouble` and `ParseBoolean` model.
- `BigtableService.traceByEndToEndId` (255-314) and `searchLogsWithFilter` (319-351) are left out. They depend on a regex filter evaluated inside the store and on `Instant`/`Double` `toString` rendering, which this model does not have.
- `AnalyticsService.generateHeatmapInsights` (163-219) is left out: it produces French sentences about the busiest day and hour.
- `AnalyticsService.detectAnomaliesInTrend` (501-537) is left out. It is the list of anomalies that `getTrends` attaches to a trend (292), and it is computed from a square-root standard deviation over doubles.
- Anomaly UUIDs and French descriptions are not modelled.
- AnalyticsTrends.Insights: the French `summary` sentence (src/main/java/com/gutouch/monitoring/service/AnalyticsService.java:339-340), "Tendance à la hausse/à la baisse de x %", is not modelled.
- Floating-point rounding, NaN and infinities are not modelled. The one place where the source divides by a possibly-zero total, bottleneck percentages, is modelled with an explicit extended result (`Ratio`) instead.
- JavaScript `toFixed`, `Intl` and `toLocaleTimeString` rendering are not modelled. Times are drawn through a `showTime` parameter.
- `formatBytes` and the other date and number formatters outside the listed helpers are not modelled.
- JavaScript's `null`/`undefined` coercion is modelled only where it decides a branch (`Option` inputs). `x || 0` on a number that is already present is modelled as `x`, and NaN is not modelled.
- `getConnectorIcon` is left out: it is a two-entry emoji table with a fallback, the same pattern as `ConnectorFullName`.
- `api.js`, React rendering, auto-refresh timers and the duplicate page variants are left out.
- Java's `HashMap` iteration order is unspecified. Groupings here list keys in order of first appearance, so ties in the descending sorts keep that order.
- String lengths count UTF-16 units in the source and `char`s here. Only ASCII case mapping is modelled.
- Decimal.ParseDecimal: accepts plain decimal numerals (sign, digits, optional fraction). Exponents, `NaN`, `Infinity`, hexadecimal, a trailing `d`, `D`, `f` or `F` type suffix and surrounding whitespace, which `Double.parseDouble` also accepts, give no value here.
- AnalyticsPeriods.PeriodDates: a day is 24 hours. `minusDays` on Paris time spans 23 or 25 hours across a daylight-saving change, which is not modelled.
- AnalyticsPeriods.TimeRange: a day is 24 hours. `minusDays` on Paris time spans 23 or 25 hours across a daylight-saving change, which is not modelled.
- Helpers.FormatLatency: states the amount, the unit and the number of decimals, not the text `toFixed` prints.
- Formatters.FormatLatency: states the amount, the unit and the number of decimals, not the text `toFixed` prints.
- Display.LatencyReading: states the amount, unit and number of decimals, not the printed text.
- BigtableRows.ParseDouble: inherits the restrictions of `Decimal.ParseDecimal`, so "1.5d" or "2f" give null here where the source parses them.
- Metrics.ParseDoubleOr0: inherits the restrictions of `Decimal.ParseDecimal`, so "1.5d" or "2f" read as 0 here where the source parses them.
- Decimal.ParseSigned: accepts ASCII digits only. `Integer.parseInt` and `Long.parseLong` also accept the other Unicode decimal digits (Arabic-Indic, full-width and so on), which give no value here.
- BigtableRows.ParseInteger: accepts ASCII digits only, as `Decimal.ParseSigned` does; text in other Unicode decimal digits gives null here where the source parses it.
- Metrics.ParseLongOr0: accepts ASCII digits only, as `Decimal.ParseSigned` does; other Unicode decimal digits read as 0 here.
- Metrics.ParseIntOr0: accepts ASCII digits only, as `Decimal.ParseSigned` does; other Unicode decimal digits read as 0 here.
- TraceService.ParseLongOrNull: accepts ASCII digits only, as `Decimal.ParseSigned` does; other Unicode decimal digits give null here.
- BigtableScans.ConnectorMetrics: the source selects rows with the key regular expression `.*#metrics#<connector>#.*`, the name inserted unescaped. The model looks for the literal text "#metrics#" + connector + "#". A name with regular-expression metacharacters (for instance "pi.gateway", whose "." also matches the "-" of "pi-gateway" keys) and keys with line breaks, which `.*` does not cross, are not modelled.
- BigtableScans.TraceByMessageId: with two or more steps, one of them lacking a timestamp, Java's in-place sort throws partway through and the steps come back in whatever order it had reached (steps A "1", B "3", C "2", D without one come back as A, C, B, D). The model returns them in scan order there, and its contract promises only that they are the message's steps.
- Helpers.Lookup: a JavaScript table lookup `table[key] || fallback` also finds the keys every object inherits ("constructor", "toString" and the like) and returns that function instead of the fallback. The model's tables hold only their own keys and give the fallback for those names.
- Helpers.Translate: the same inherited-key behaviour as `Helpers.Lookup` is not modelled; an inherited key gives the key itself here.
- LogsPage.TypeBadgeClass: the same inherited-key behaviour as `Helpers.Lookup` is not modelled; an inherited key gives "info" here.
- Helpers.TimeRangeDates: `subDays` moves back calendar days in local time, so across a daylight-saving change "7d" and "30d" span an hour more or less than whole 24-hour days. The model subtracts 24-hour days.
- Helpers.TimeRangeMatchesBackend: holds in the 24-hour-day model. The backend subtracts exact 24-hour days from an `Instant`, so across a daylight-saving change the dashboard's "7d" and "30d" windows start an hour away from the backend's. The ranges counted in hours match exactly.
- BigtableScans.SearchLogs: the store read asks for `limit * 2` rows in 32-bit arithmetic (src/main/java/com/gutouch/monitoring/service/BigtableService.java:114). For a limit of 0 or less, or one whose doubled value overflows (it then wraps below 0), that read fails and the catch at 141 returns an empty list; the model leaves out the store's row limit and keeps the first match there.
- BigtableScans.ErrorLogs: the store read asks for `limit * 10` rows in 32-bit arithmetic (src/main/java/com/gutouch/monitoring/service/BigtableService.java:160). For a limit of 0 or less, or one whose tenfold value wraps to 0 or below, that read fails and the catch at 179 returns an empty list; the model leaves out the store's row limit and keeps the first match there. A tenfold value that wraps to a small positive number reads only that many rows, which the model does not limit either.
- DataAdapter.AdaptConnectorDetails: the detail record leaves out the `topEndpoints` field, which monitoring-frontendd/src/utils/dataAdapter.js:80 always sets to an empty list.

## Findings

| source | as written | input that shows it | evidently intended | confidence | as-written member | corrected member |
|---|---|---|---|---|---|---|
| monitoring-frontendd/src/pages/LogsExplorer.jsx:45-51 | every page button (previous 371, numbered 394, next 409) calls `handleFilterChange('page', n)`, which spreads `[key]: value` and then `page: 1`, so the page is always reset to 1 | on page 1 of 3, "next" computes 2 but the explorer shows page 1 again; no button ever leaves page 1 | a page button sets only the page, as `handlePageChange` does in the log table page | high (not executed) | LogsExplorer.ClickAsWritten, LogsExplorer.ButtonsAlwaysGoToFirstPage, LogsExplorer.NextFromFirstPageStays | LogsExplorer.Click, LogsExplorer.ClickNavigates |
