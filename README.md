# Bitcoin price stream: windowed aggregation and spike alerts

This project models the streaming query of `spark_streaming_app.py`
(`process_bitcoin_stream`). The query reads Bitcoin price records
from a monitored directory, one new file per trigger. Each record is stamped
with an event time, the Unix `Timestamp` cast to whole seconds. The records
are grouped into epoch-aligned ten-minute tumbling windows under a
five-minute watermark. For each window the query computes:

- the average, minimum and maximum `Close`;
- the sample standard deviation of `Close` (`volatility`, filled with 0 when it is null);
- the total `Volume`;
- an alert label: `"Spike di Prezzo > 2%"` when `max_price > avg_price * 1.02`, `"Nominal"` otherwise.

In append mode every window is written once, after the watermark has passed
its end. Rows go to two sinks: one takes every row, the other only the rows
whose alert is not `"Nominal"`.

Modules:

- `EventTime` (`event_time.dfy`): records, truncation to seconds, window starts and ends.
- `Aggregate` (`aggregate.dfy`): the running per-window aggregate (count, sums, sum of squares, min, max) and what it equals for a sequence of records.
- `Alert` (`alert.dfy`): the finalised row, the filled volatility, the alert rule and the alerts-sink filter.
- `Engine` (`engine.dfy`): the query as a function of its input. `Ingest` merges a batch, `Advance` moves the watermark, `Cycle` is one trigger and `Run` is a sequence of files.
- `Properties` (`properties.dfy`): theorems about `Run`. They cover exactly-once emission in window order (every window that accepted a record is emitted once the watermark passes its end, and no window is emitted twice), the statistics of each emitted window over exactly the records merged into it, late records being ignored, the watermark tracking the largest event time, and the bound on live windows.
- `Query` (`query.dfy`): the class `StreamingQuery`. Its fields hold the watermark, the state store, the emitted window ends and the two sinks. `ProcessBatch` updates them in loops over the records and over the windows to finalise, and is proved to equal `Cycle`.

Where the code and its comments disagree, the model follows the code:

- The alert rule is the 1.02 multiplier of `spark_streaming_app.py:80`, not the "mean + 2 standard deviations" rule of the comment at lines 75-76.
- `volatility` is Spark's `stddev`, the sample standard deviation (divisor n - 1). It is not the population deviation. For a one-record window it is null, and `na.fill` makes it 0.
- The watermark starts at the epoch (0), as Spark's does. A record whose window ends at or before 0 is therefore always late.

## Model

| member | source | states |
|---|---|---|
| EventTime.TruncateToLong | spark_streaming_app.py:49-52 | `cast("long")` truncates toward zero: the result is the whole part of the timestamp, within one second of it, on the same side of 0 |
| EventTime.EventTimeOf | spark_streaming_app.py:49-52 | the event time of a record is its `Timestamp` truncated toward zero to whole seconds: within one second of it, on the same side of 0 |
| EventTime.WindowStart | spark_streaming_app.py:62-64 | the window start of a second is a multiple of 600 and the window `[start, start + 600)` contains that second |
| EventTime.WindowOf | spark_streaming_app.py:62-64 | a record's window starts at a multiple of 600 and `[start, start + 600)` contains the record's event time |
| EventTime.WindowUnique | spark_streaming_app.py:62-64 | any aligned 600-second window that contains a second is the one `WindowStart` gives |
| EventTime.RecordInOneWindow | spark_streaming_app.py:49-64 | a record's event time lies in its window, and an aligned window contains the record's event time if and only if it is the record's window |
| Aggregate.Add | spark_streaming_app.py:65-71 | merging one record adds 1 to the count, adds its `Close` and `Volume` to the sums, and widens `[min, max]` to include its `Close` |
| Aggregate.AddAll | spark_streaming_app.py:65-71 | merging a sequence of records adds its length to the count and its sums of `Close` and `Volume` to the running sums |
| Aggregate.AddConsistent | spark_streaming_app.py:65-71 | merging a record keeps min <= average <= max and the variance numerator non-negative |
| Aggregate.AddAllConsistent | spark_streaming_app.py:65-71 | the same holds after merging any sequence of records |
| Aggregate.AddAllConcat | spark_streaming_app.py:62-71 | merging `xs` and then `ys` gives the same aggregate as merging `xs + ys`, so splitting a window's records across files changes nothing |
| Aggregate.AddAllMeaning | spark_streaming_app.py:65-71 | the aggregate of a sequence of records holds its length, the sum of `Close`, the sum of squares of `Close` and the sum of `Volume`, and it holds the least and greatest `Close` of the records; it is the empty aggregate exactly for no records |
| Alert.AlertLabel | spark_streaming_app.py:79-82 | the alert column takes only the spike label or `"Nominal"` |
| Alert.AlertRule | spark_streaming_app.py:79-82 | the label is the spike label if and only if `max > avg * 1.02`, and `"Nominal"` if and only if `max <= avg * 1.02` |
| Alert.FilledVariance | spark_streaming_app.py:69-77 | the volatility after `na.fill(0)`: 0 for a single-record window (where the sample deviation is null), and never negative for an aggregate of actual records |
| Alert.Finalise | spark_streaming_app.py:65-83 | the row of a window covers `[start, start + 600)`; its average times the count is the sum of `Close`; min, max and total volume are the aggregate's; its alert is not `"Nominal"` exactly when `max > avg * 1.02` |
| Alert.AlertsOnly | spark_streaming_app.py:100-101 | the alerts filter returns no more rows than it is given, and every row it returns is one of its input rows whose alert is not `"Nominal"` |
| Alert.AverageBetween | spark_streaming_app.py:66-68 | the average of a non-empty window lies between its minimum and maximum |
| Alert.FinaliseFacts | spark_streaming_app.py:65-83 | a finalised row has end = start + 600, `avg * count == sum of Close`, `min <= avg <= max`, `total_volume` = the sum of `Volume`, a non-negative volatility that is 0 for one record, and an alert other than `"Nominal"` exactly when `max > avg * 1.02` |
| Alert.AlertsOnlyAppend | spark_streaming_app.py:100-101 | filtering commutes with appending: the alerts of `xs + ys` are the alerts of `xs` followed by those of `ys` |
| Alert.AlertsOnlyMembers | spark_streaming_app.py:100-101 | a row is in the alerts sink if and only if it is in the results and its alert is not `"Nominal"` |
| Alert.AlertsOnlyKeepsAlerts | spark_streaming_app.py:100-101 | the filter never adds rows, and it keeps every row when no row is `"Nominal"` |
| Alert.ScenarioRecords | spark_streaming_app.py:49-64 | builds one record per given close, all within the first window |
| Alert.ScenarioSpike | spark_streaming_app.py:79-82 | closes 100, 101, 99, 102, 150 give average 110.4, maximum 150 and the spike label |
| Alert.ScenarioNominal | spark_streaming_app.py:79-82 | closes 100, 101, 99, 102 give average 100.5, maximum 102 and `"Nominal"` |
| Engine.Ingest | spark_streaming_app.py:60-71 | merging a batch keeps every open window and opens only windows of records that are not late; each window it touches is non-empty; a window already closed at the watermark is left unchanged |
| Engine.Late | spark_streaming_app.py:61-64 | the late-drop rule: a late record's event time is before the watermark, and every record at least 600 seconds before the watermark is late |
| Engine.MaxEventTime | spark_streaming_app.py:61 | the largest event time of a non-empty batch: it bounds every record's event time and is one of them |
| Engine.Advance | spark_streaming_app.py:61 | the new watermark is never below the old one and never below the batch's largest event time minus 300, and it is one of the two |
| Engine.FlushRows | spark_streaming_app.py:90-92 | the rows emitted for a list of window starts are the finalised rows of those windows, one per start and in the same order |
| Engine.Cycle | spark_streaming_app.py:44-97 | one trigger keeps the query invariant: the watermark is not negative, open windows are aligned, non-empty and not yet closed, and every emitted end is at or before the watermark |
| Engine.Run | spark_streaming_app.py:44 | one trigger per file, in order, keeps the same invariant |
| Engine.NextStateInv | spark_streaming_app.py:61-92 | evicting every window the new watermark closed leaves a state satisfying the query invariant |
| Engine.DueReady | spark_streaming_app.py:90-92 | every window due for finalisation is in the store and non-empty |
| Engine.AscendingElements | spark_streaming_app.py:90-92 | the finalisation order lists each due window exactly once, in strictly ascending start order |
| Properties.InWindowFacts | spark_streaming_app.py:60-64 | a window takes exactly the records of the batch that fall in it and are not late, and none once it has closed |
| Properties.RecordMergedOnce | spark_streaming_app.py:62-64 | a record that is not late is merged into its own window and into no other aligned window |
| Properties.IngestExact | spark_streaming_app.py:62-71 | after a batch, each window's aggregate is its old aggregate with the window's non-late records of the batch merged in |
| Properties.IngestConcat | spark_streaming_app.py:60-71 | ingesting `xs + ys` equals ingesting `xs` and then `ys` at the same watermark |
| Properties.AdvanceIgnoresLate | spark_streaming_app.py:61 | a late record never moves the watermark |
| Properties.LateRecordIgnored | spark_streaming_app.py:61-92 | a batch with a late record in it gives the same state and the same rows as the batch without it: the record is not merged, does not reopen its window and emits nothing |
| Properties.EmittedWindowIsLate | spark_streaming_app.py:61-92 | every record of an already emitted window is late |
| Properties.FlushFacts | spark_streaming_app.py:90-92 | the rows a trigger emits end after the old watermark and at or before the new one, were not emitted before, are in ascending window order, and their ends are exactly the evicted windows' ends |
| Properties.CycleFacts | spark_streaming_app.py:60-97 | one trigger: the watermark becomes `Advance` of the old one and never decreases; every row it emits is newly closed and not emitted before; rows are in window order; the emitted ends grow by exactly the ends of these rows |
| Properties.AcceptedFrozen | spark_streaming_app.py:61-92 | once a window is emitted, later files add no record to it |
| Properties.RunInvariant | spark_streaming_app.py:44-108 | after any sequence of files: each open window's aggregate is the merge of exactly the records accepted into it; each emitted row is the finalisation of exactly the records accepted into its window; rows are in window order; the emitted ends are exactly the rows' ends |
| Properties.EmittedOnceInOrder | spark_streaming_app.py:61-97 | over a run, every window is emitted at most once, in ascending start order, only after the watermark reached its end, and every window still open ends after the watermark |
| Properties.ClosedNonEmptyEmitted | spark_streaming_app.py:61-97 | every window that accepted a record and whose end the watermark has reached has been emitted, as the row of exactly the records accepted into it |
| Properties.AlertsByStart | spark_streaming_app.py:100-108 | the alerts sink is also in ascending window order, so it too holds each window at most once |
| Properties.ByStartSnoc | spark_streaming_app.py:90-92 | appending a row with a later start than all earlier rows keeps the rows in window order |
| Properties.WindowStatistics | spark_streaming_app.py:62-83 | every emitted row is computed from a non-empty set of accepted records that all lie in its window. Its average is their `Close` sum over their count, its min and max are their least and greatest `Close`, and its `total_volume` is their `Volume` sum. `min <= avg <= max` holds, the volatility is non-negative and 0 for one record, and the alert follows the 1.02 rule |
| Properties.AcceptedInWindow | spark_streaming_app.py:62-64 | every record accepted into window `k` belongs to window `k` |
| Properties.AcceptedFromInput | spark_streaming_app.py:44-64 | every accepted record comes from the input files |
| Properties.MaxEventTimeConcat | spark_streaming_app.py:61 | the largest event time of two batches together is the larger of their largest event times |
| Properties.WatermarkAfterStep | spark_streaming_app.py:61 | reading one more batch moves the reference watermark exactly as one trigger does |
| Properties.WatermarkTracksMax | spark_streaming_app.py:61 | after any files, the watermark is the largest event time read minus 300 seconds (not below the initial 0), whatever order the records came in |
| Properties.WatermarkMonotone | spark_streaming_app.py:61 | reading more files never lowers the watermark |
| Properties.TwoWindowsBack | spark_streaming_app.py:61-64 | an aligned window that starts at or before `t` and ends after `t - 300` is the window of `t` or the one before it |
| Properties.LiveWindowsBounded | spark_streaming_app.py:61-64 | after any files, an open window is the window of the largest event time read or the one just before it |
| Query.MinOf | spark_streaming_app.py:90-92 | returns the least window start of a non-empty set |
| Query.FlushStep | spark_streaming_app.py:90-92 | finalising the least remaining due window keeps the flush loop's invariant and shrinks the remaining set |
| Query.StreamingQuery.constructor | spark_streaming_app.py:60-108 | a new query has watermark 0, no open window, nothing emitted and two empty sinks |
| Query.StreamingQuery.Merge | spark_streaming_app.py:60-71 | the loop over the records leaves the store equal to `Ingest` of the batch and returns its largest event time |
| Query.StreamingQuery.Flush | spark_streaming_app.py:90-92 | the loop over due windows evicts exactly the windows the watermark closed, records their ends, and returns their finalised rows in ascending start order |
| Query.StreamingQuery.ProcessBatch | spark_streaming_app.py:44-108 | one trigger on the object does what `Cycle` does. Both sinks receive the emitted rows; the alerts sink receives them without the `"Nominal"` ones, so it stays the filter of the results sink. The watermark never decreases, and every emitted row is newly closed, emitted once and in window order |
| Query.StreamingQuery.RunFiles | spark_streaming_app.py:44 | processing files one per trigger leaves the object in the state of `Run` and appends its rows to the results sink |

## Left out

- SparkSession construction, the `local[2]` cores, shuffle partitions and log level (spark_streaming_app.py:13-23): runtime and concurrency configuration.
- Directory monitoring, CSV parsing and null fields (spark_streaming_app.py:36-45): file I/O and text decoding. A record is an already-decoded tuple, and one file is one sequence of records.
- The timezone round-trip of `from_unixtime(...).cast("timestamp")` (spark_streaming_app.py:51): only the truncation to whole seconds is kept.
- IEEE double rounding: prices, volumes and timestamps are exact reals.
- EventTime.TruncateToLong: the 64-bit range of `cast("long")` (spark_streaming_app.py:51) is not modelled. Spark saturates a timestamp outside that range, or raises an error in ANSI mode; the model returns an unbounded integer.
- Alert.FilledVariance: the row carries the sample variance, not its square root. `stddev` is the square root of this value, and the square root is not modelled.
- Parquet output, checkpoint directories, the 3-second trigger timing and `awaitAnyTermination` (spark_streaming_app.py:93-96, 104-107, 114): I/O, wall clock and blocking. The set of emitted window ends stands for the checkpointed state.
- The two queries are two Spark queries with their own state. Both compute the same deterministic function of the same files, so the model runs one engine that writes to both sinks.
- Engine.Cycle: Spark does not promise the order of the rows within one micro-batch. The model emits them in ascending window start.
- Engine.Cycle: Spark applies a new watermark in the batch that follows. The model folds that follow-up batch (which has no new data) into the same trigger, so the records of a file are filtered with the watermark from before the file and eviction uses the watermark after it.
- `stream_simulator.py` and `prepare_data.py` are not part of this model: they are I/O scripts that write the input files.
