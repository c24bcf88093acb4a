# prometheus-c: a verified model of the metrics engine

prometheus-c is a small in-process metrics library in C. An application
creates a registry (`prometheus_metrics_create`) carrying global labels. It
adds counter, gauge and histogram families to the registry, adds labelled
series to each family, and creates instances in each series. Hot-path code
then updates the instances: it bumps counters, sets or adds to gauges, and
samples into histogram buckets. A scrape walks the registry and writes every
family in the Prometheus text exposition format. For each series the scrape
sums the series' live instances.

This project models that engine sequentially in Dafny and proves its
behaviour. Each call is treated as atomic.

- `Wrappers`: the `Option` type. A C string argument that may be NULL is an
  `Option<string>`. A registry, family or series pointer that may be NULL is a
  nullable reference: `Metrics?` for the scrape, and the `Counter?`, `Gauge?`,
  `Histogram?`, `CounterSeries?`, `GaugeSeries?` and `HistogramSeries?` that the
  constructors return.
- `Words`: 64-bit unsigned and signed words, and the wrap-around of
  `uint64_t` arithmetic (`Wrap`, `Add64`, `ToU64`). Also `Decimal`, the
  `%lu` rendering, with its inverse `ParseDecimal`.
- `IntrusiveList`: the `list_append`, `list_delete` and `list_foreach` macros.
  - They work on a value `Links`, holding the head and each element's
    `prev`/`next` pointers.
  - They are proved to append at the tail, to remove exactly one element,
    and to walk in insertion order.
  - The registry's collections are held as sequences in that same order.
- `Legality`: the name and value validators, and the per-label validation
  loop of the series constructors.
- `Instances`: the counter, gauge and histogram instance cells and their
  inline mutators.
  - Bucket placement (`63 - clzll(v)`, or `(v - start) / increment`,
    clamped) is a function.
  - It is proved against floor(log2) and against interval membership.
- `Exposition`: the exposition text as functions of a read-only view of the
  registry (`MetricsView`), with lemmas about its layout and its totals.
- `Metrics`: the registry, the families and the series as classes.
  - Covers the `*_add_*` and `*_create_instance` constructors and the
    teardowns.
  - `Metrics.Valid()` keeps the whole structure well formed.
  - `Metrics.Snapshot()` is the view a scrape renders.
- `Scrape`: `prometheus_metrics_scrape` and `prometheus_metrics_emit_series_base`
  as methods. `prometheus_metrics_emit_base` is the function
  `Exposition.HelpTypeText`.
  - The scrape and its per-family emitters accumulate totals in loops and
    overwrite each histogram series' bucket array in place.
  - Each emitter is proved to write exactly the text that `Exposition`
    defines for the state before the call.

## Model

| member | source | states |
|---|---|---|
| Words.Wrap | prometheus-c.c:537 | converting an integer to `uint64_t` keeps a value that fits and otherwise differs from it by a multiple of 2^64 |
| Words.Add64IsWrap | prometheus-c.h:74-80 | unsigned 64-bit addition is addition modulo 2^64 |
| Words.ToU64IsWrap | prometheus-c.c:537 | adding an `int64_t` into a `uint64_t` adds its value modulo 2^64 |
| Words.WrapAdd | prometheus-c.c:506 | reducing a partial total modulo 2^64 before adding the next term does not change the wrapped result |
| Words.DecimalRoundTrip | prometheus-c.c:512 | the `%lu` text of a value is a non-empty digit string, has no leading zero unless the value is 0, and reads back as the value |
| IntrusiveList.EmptyRepresents | prometheus-c.c:10-22 | the NULL head represents the empty sequence |
| IntrusiveList.AppendAtTail | prometheus-c.c:10-22 | `list_append` on a list of the sequence `s`, with an element not in `s`, gives a list of `s + [add]` |
| IntrusiveList.DeleteRemoves | prometheus-c.c:24-39 | the preconditions of `list_delete` hold for any member of a list, and deleting position `k` gives a list of `s` without position `k`, the rest in order |
| IntrusiveList.Walk | prometheus-c.c:41-42 | following `next` from the head visits exactly the represented sequence, in order |
| Legality.LegalName | prometheus-c.c:142-158 | the result is true iff the string is non-NULL and every character is an ASCII letter, a digit or `_` |
| Legality.LegalValue | prometheus-c.c:160-176 | the result is true iff the string is non-NULL and contains no `"` |
| Legality.LegalLabels | prometheus-c.c:657-665 | the validation loop accepts iff every label name is legal and every label value is legal |
| Legality.LegalityExamples | prometheus-c.c:142-176 | a name with a blank or `!` fails, `test_counter1` and the empty name pass, NULL fails both checks, and a value fails only on a quote |
| Instances.CounterInstance.Increment | prometheus-c.h:68-72 | the value grows by one modulo 2^64 |
| Instances.CounterInstance.Add | prometheus-c.h:74-80 | the value grows by `v` modulo 2^64 |
| Instances.GaugeInstance.Set | prometheus-c.h:98-104 | the value becomes `v` |
| Instances.GaugeInstance.Add | prometheus-c.h:106-112 | the value grows by the signed `v` exactly |
| Instances.Clz64 | prometheus-c.h:148 | the leading-zero count of a non-zero word is at most 63 |
| Instances.ClzIsLog2 | prometheus-c.h:148 | `63 - clzll(x)` equals floor(log2 x) for every non-zero `x` |
| Instances.Log2Bounds | prometheus-c.h:148 | floor(log2 x) is the `k` with 2^k <= x < 2^(k+1) |
| Instances.BucketIndex | prometheus-c.h:147-155 | the chosen bucket is always below the bucket count |
| Instances.ExponentialMonotone | prometheus-c.h:147-155 | a larger positive sample never lands in a lower exponential bucket |
| Instances.LinearMonotone | prometheus-c.h:150-155 | from `start` upward, a larger sample never lands in a lower linear bucket |
| Instances.ExponentialPlacement | prometheus-c.h:147-148 | a positive sample in [2^k, 2^(k+1)) lands in bucket `k`, or in the last bucket when `k` is past it |
| Instances.ExponentialIgnoresLayout | prometheus-c.h:147-148 | the exponential bucket does not depend on `start` or `increment` |
| Instances.ExponentialNegative | prometheus-c.h:147-148 | a negative exponential sample lands in bucket 63, clamped |
| Instances.LinearPlacement | prometheus-c.h:150-155 | a sample in [start + increment*i, start + increment*(i+1)) lands in bucket `i`, clamped |
| Instances.LinearBelowStart | prometheus-c.h:150-155 | a non-negative sample below `start` wraps round to the last bucket, provided the last bucket's lower bound `start + increment*(count-1)` is at most 2^64 |
| Instances.ExponentialExamples | prometheus-c.h:147-155 | with 16 exponential buckets, 100 goes to bucket 6 and 11 to bucket 3 |
| Instances.LinearExamples | prometheus-c.h:150-155 | with start 10, increment 10 and 10 buckets: 10 and 19 go to bucket 0, 20 to 1, 31 to 2, and 1000 to 9 |
| Instances.HistogramInstance.constructor | prometheus-c.c:892-898 | the instance has the given layout, a fresh zeroed bucket array of `numBuckets` entries, and zero `sum` and `count` |
| Instances.HistogramInstance.Sample | prometheus-c.h:140-161 | exactly the placement bucket grows by one, every other bucket is unchanged, `sum` grows by the sample as unsigned and `count` by one, all modulo 2^64 |
| Exposition.TerminatedIsJoinedWithComma | prometheus-c.c:444-455 | writing each pair with a trailing comma and then dropping the last comma gives the pairs joined by commas |
| Exposition.LabelSetShape | prometheus-c.c:442-457 | a series with no labels at all renders `{} `, and a non-empty label list ends in a quote, not a comma |
| Exposition.GlobalLabelsFirst | prometheus-c.c:444-450 | the global pairs come first, then one comma, then the series' own pairs |
| Exposition.CounterTotalIsSum | prometheus-c.c:502-507 | a counter series reports the sum of its instances modulo 2^64, which is the exact sum when that is below 2^64 |
| Exposition.GaugeTotalIsSum | prometheus-c.c:533-538 | a gauge series reports the signed sum of its instances modulo 2^64, so a negative total `t` prints as 2^64 + t |
| Exposition.BucketTotalIsColumnSum | prometheus-c.c:572-577 | the value of bucket line `i` is the sum of bucket `i` over the instances, modulo 2^64, and is not cumulative |
| Exposition.SampleRaisesOneBucketTotal | prometheus-c.c:572-577 | after one sample in bucket `b` of one instance, the next scrape reports bucket `b` one higher and every other bucket unchanged |
| Exposition.SumTotalIsSum | prometheus-c.c:561-568 | the `_sum` value of a series is the sum of its instances' `sum` fields modulo 2^64 |
| Exposition.CountTotalIsSum | prometheus-c.c:561-568 | the `_count` value of a series is the sum of its instances' `count` fields modulo 2^64 |
| Exposition.SampleRaisesSumAndCount | prometheus-c.h:159-160 | after one sample `v` in one instance, the next scrape reports `_sum` higher by `v` taken as unsigned and `_count` higher by one, modulo 2^64 |
| Exposition.HistogramSeriesShape | prometheus-c.c:570-604 | a histogram series renders exactly `count` `_bucket` lines, line `i` with its threshold and the per-bucket total and the last with `+Inf`, then one `_sum` and one `_count` line |
| Exposition.ThresholdValues | prometheus-c.c:579-588 | the `le` value of bucket `i` is 2^(i+1) for the exponential scheme, and start + increment*(i+1) for the linear one, whenever these fit in 64 bits |
| Exposition.CounterFamilyEndsBlank | prometheus-c.c:517-518 | a counter family's text ends in a blank line |
| Exposition.HistogramFamilyEndsBlank | prometheus-c.c:609-610 | a histogram family's text ends in a blank line |
| Exposition.GaugeFamilyEndsOnce | prometheus-c.c:523-549 | a gauge family's text ends in a newline that is not preceded by another, so no blank line follows it |
| Exposition.HelpTypeExample | prometheus-c.c:421-429 | the counter family `test_counter1` with help `Test counter1` renders `# HELP test_counter1 Test counter1` and `# TYPE test_counter1 counter` |
| Exposition.CounterLineExample | prometheus-c.c:432-460 | the series line for global label `global="root"`, series label `test="test1"` and total 11 is `test_counter1{global="root",test="test1"} 11` |
| Exposition.CounterScrapeExample | prometheus-c.c:491-521 | the registry with that one counter family renders its HELP and TYPE lines, the series line and a blank line |
| Metrics.CopyLabels | prometheus-c.c:404-419 | the copied labels are the given name/value pairs, in order |
| Metrics.Metrics.constructor | prometheus-c.c:208-230 | a fresh, valid registry with copies of the global labels in order and no families |
| Metrics.Metrics.AddCounter | prometheus-c.c:620-645 | NULL, with the registry unchanged, iff the name is illegal; otherwise a fresh counter family of type "counter" with no series, at the tail of the counter list, with every other list unchanged |
| Metrics.Metrics.AddGauge | prometheus-c.c:698-723 | the same as `AddCounter`, with type "gauge" and the gauge list |
| Metrics.Metrics.AddHistogram | prometheus-c.c:777-842 | the same as `AddCounter`, with type "histogram" and the histogram list; the family keeps the given scheme, start, increment and count |
| Metrics.Metrics.AddHistogramExponential | prometheus-c.c:777-806 | `AddHistogram` with the exponential scheme and the given count |
| Metrics.Metrics.AddHistogramLinear | prometheus-c.c:809-842 | `AddHistogram` with the linear scheme and the given start, increment and count |
| Metrics.Metrics.AddCounterSeries | prometheus-c.c:647-680 | NULL, with nothing linked, iff some label name or value is illegal; otherwise a fresh series with copies of the labels in order and no instances, at the tail of the family's series |
| Metrics.Metrics.AddGaugeSeries | prometheus-c.c:725-758 | the same as `AddCounterSeries`, for a gauge family |
| Metrics.Metrics.AddHistogramSeries | prometheus-c.c:844-883 | the same as `AddCounterSeries`; the new series also copies the family's scheme, count, start and increment, and gets a fresh zeroed bucket array of `count` entries |
| Metrics.Metrics.CreateCounterInstance | prometheus-c.c:682-696 | a fresh instance with value 0, at the tail of the series' instances |
| Metrics.Metrics.CreateGaugeInstance | prometheus-c.c:760-774 | a fresh instance with value 0, at the tail of the series' instances |
| Metrics.Metrics.CreateHistogramInstance | prometheus-c.c:885-905 | a fresh instance with the series' scheme, count, start and increment, a zeroed bucket array of that count, and zero `sum` and `count`, at the tail of the series' instances |
| Metrics.DestroyCounter | prometheus-c.c:253-283 | afterwards the family has no series, and each of its former series has no instances |
| Metrics.DestroyGauge | prometheus-c.c:286-314 | the same for a gauge family |
| Metrics.DestroyHistogram | prometheus-c.c:316-349 | the same for a histogram family |
| Metrics.Metrics.DestroyCounters | prometheus-c.c:351-390 | the counter list becomes empty, and every former counter family and its series are emptied |
| Metrics.Metrics.DestroyGauges | prometheus-c.c:351-390 | the same for the gauge list |
| Metrics.Metrics.DestroyHistograms | prometheus-c.c:351-390 | the same for the histogram list |
| Metrics.Metrics.Destroy | prometheus-c.c:351-390 | all three family lists become empty, and every former family and series is emptied |
| Scrape.EmitSeriesBase | prometheus-c.c:432-460 | the text written is the name, the suffix and `{`, then the global and series pairs joined by commas, then `} ` |
| Scrape.TakeBackComma | prometheus-c.c:452-455 | after the pairs, the last character is `{` exactly when there are no labels, and otherwise a trailing comma that, once dropped, leaves the joined pairs |
| Scrape.CounterSeriesTotal | prometheus-c.c:502-507 | the value is the total of the series' instance values modulo 2^64 |
| Scrape.EmitCounterFamily | prometheus-c.c:491-521 | the text written is the family's `# HELP`/`# TYPE` lines, one line per series with its total, then a blank line |
| Scrape.GaugeSeriesTotal | prometheus-c.c:533-538 | the value is the total of the series' signed instance values, modulo 2^64 |
| Scrape.EmitGaugeFamily | prometheus-c.c:523-549 | the text written is the family's `# HELP`/`# TYPE` lines and one line per series with its total, with no blank line |
| Scrape.HistogramSeriesSums | prometheus-c.c:561-568 | `sum` and `total` are the `_sum` and `_count` values of the series' view, which `Exposition.SumTotalIsSum` and `Exposition.CountTotalIsSum` show are the sums of the instances' `sum` and `count` fields modulo 2^64 |
| Scrape.RefreshBucket | prometheus-c.c:572-577 | entry `i` of the series' bucket array becomes the total of bucket `i` over the instances, and the other entries are unchanged |
| Scrape.EmitHistogramSeries | prometheus-c.c:570-604 | the text written is the series' `_bucket`, `_sum` and `_count` lines, and every entry of the series' bucket array now holds its bucket total |
| Scrape.EmitHistogramFamily | prometheus-c.c:551-613 | the text written is the family's `# HELP`/`# TYPE` lines, each series' lines, then a blank line |
| Scrape.EmitCounters | prometheus-c.c:491-521 | the text written is every counter family in list order, and the registry is unchanged |
| Scrape.EmitGauges | prometheus-c.c:523-549 | the text written is every gauge family in list order, and the registry is unchanged |
| Scrape.EmitHistograms | prometheus-c.c:551-613 | the text written is every histogram family in list order; only the series' scratch bucket arrays are written |
| Scrape.Scrape | prometheus-c.c:462-618 | -1 and no text when the registry is NULL or the buffer size is 0; otherwise the counters, then the gauges, then the histograms, with the returned count equal to the length of the text; the registry stays valid and its view is unchanged |
| Scrape.ScrapeTwice | prometheus-c.c:572-577 | two scrapes with no update in between write the same text |
| Scrape.CounterFamilySetup | tests/counter.c:16-21 | a fresh, valid registry with the global label `global="root"`, one counter family `test_counter1` with help `Test counter1` and type `counter`, no gauges or histograms, and in that family one fresh series `test="test1"` with no instances |
| Scrape.CounterSetup | tests/counter.c:16-36 | a registry with global label `global="root"`, counter family `test_counter1`, series `test="test1"` and one instance incremented once and then by 10 is valid and has the view with the single value 11 |
| Scrape.CounterScenario | tests/counter.c:16-41 | scraping that registry writes exactly its HELP and TYPE lines, `test_counter1{global="root",test="test1"} 11` and a blank line, and returns the length of that text |

## Left out

- Mutexes and the lock order: every call is atomic and sequential.
- The lock-free hot path and the cache-line alignment are not modelled either.
- Allocation always succeeds, so `prometheus_calloc`'s and `prometheus_strdup`'s abort path is absent. Freeing has no counterpart: a teardown only empties the lists.
- Teardown does not restore `Metrics.Valid()`. After `Metrics.Metrics.Destroy` the registry is dead and nothing may use it.
- The histogram lines keep the source's brace layout. A bucket line is written as `name_bucket{le="X"}{labels} v` (prometheus-c.c:579-587, then prometheus-c.c:442). This has a second pair of braces, which the Prometheus text exposition format does not accept. The model reproduces that text as written.
- The debug `fprintf(stderr, ...)` in the histogram loop (prometheus-c.c:595) is I/O and writes nothing to the buffer.
- The output buffer is modelled as the string written.
  - `sprintf` has no capacity check, so buffer bounds are not modelled.
  - `bufferSize` only matters as the zero test.
  - The `*bp = '\0'` before the NULL test (prometheus-c.c:482) makes a NULL buffer undefined behaviour in C, so the buffer is not a parameter.
- The `int` loop counters of the C code are unbounded here. Overflow would need more than 2^31 labels or buckets.
- A Dafny `char` stands for one C `char`, that is one byte. Non-ASCII text is modelled as its byte sequence, one `char` per byte, so the `n` of `Scrape.Scrape` counts bytes as C does. The validators are unaffected by this reading: no byte of a UTF-8 multi-byte character is a letter, a digit, `_` or `"`.
- `isalnum` is taken as ASCII letters and digits. Locale and embedded NUL characters are not modelled: a string ends at its length.
- Undefined behaviour in C becomes a precondition:
  - an exponential sample of 0 (`__builtin_clzll(0)`);
  - a linear increment of 0 (division by zero);
  - a histogram count of 0 (the clamp would underflow);
  - a signed overflow in the gauge `add`.
- `1UL << (i + 1)` for `i + 1 >= 64` is undefined in C. `Exposition.Threshold` takes it as 2^(i+1) modulo 2^64.
- Collections are sequences, not pointer structures.
  - The registry's family lists, each family's series list and each series' instance list are sequences that grow at the tail.
  - `IntrusiveList` proves that the list macros implement exactly these sequence operations, but the classes do not carry `prev`/`next` pointers.
- The series and instance constructors are methods of `Metrics.Metrics` that take the family or series as a parameter. The registry's footprint (`Repr`, `Cells`, `Scratch`) is kept up to date this way. The C functions take only the family or series.
  - A series constructor runs the validation loop `Legality.LegalLabels` and then links the new series with `LinkCounterSeries`, `LinkGaugeSeries` or `LinkHistogramSeries`.
  - The family teardowns `Metrics.DestroyCounter`, `Metrics.DestroyGauge` and `Metrics.DestroyHistogram` are module-level methods. The three phases of the registry teardown are methods of `Metrics.Metrics`.
- `prometheus_series_base_init` and `prometheus_metric_base_init` are inlined.
  - The series constructors copy the labels with the function `Metrics.LabelsOf`; `Metrics.CopyLabels` is the same copy written as the C loop.
  - `prometheus_metric_base_init` becomes the family constructors.
  - The `type` field holds 16 characters, which is enough for "histogram", so its `snprintf` truncation never happens and is not modelled.
- A NULL help string is not modelled: `strdup(NULL)` crashes. Help text is not validated.
- A NULL label array or label string in `prometheus_metrics_create` likewise crashes. The registry constructor requires the labels to be present.
- `prometheus_metrics_emit_base` is the function `Exposition.HelpTypeText`. `Scrape.EmitCounterFamily` and the other family emitters state their text in terms of it, so it has no method of its own.
- The exponential constructor leaves `start` and `increment` as `calloc` zeroed them. The model sets them to 0, and the exponential scheme never reads them (`Instances.ExponentialIgnoresLayout`).
- The test programs call entry points that the library does not define (`prometheus_metrics_create_counter`, for instance), so they are not modelled as written. Their inputs appear as examples (`Instances.ExponentialExamples`, `Instances.LinearExamples`, `Legality.LegalityExamples`). The first family, series and instance of tests/counter.c are replayed through the library's own entry points, with the scrape text worked out exactly, in `Scrape.CounterScenario`, `Exposition.CounterLineExample` and `Exposition.CounterScrapeExample`. The other three series of that program are not replayed.
