/** The Prometheus text exposition that `prometheus_metrics_scrape` writes,
    as functions of a read-only view of the registry. Every collection of the
    view is in insertion order; every total is the one the scrape loop
    accumulates in a `uint64_t`, so it wraps modulo 2^64. */
module Exposition {
  import opened Words
  import opened Instances

  datatype Label = Label(name: string, value: string)

  /** `struct prometheus_metric_base`. */
  datatype MetricBase = MetricBase(name: string, help: string, typeName: string)

  datatype CounterSeriesView = CounterSeriesView(labels: seq<Label>, values: seq<u64>)
  datatype CounterView = CounterView(base: MetricBase, series: seq<CounterSeriesView>)

  datatype GaugeSeriesView = GaugeSeriesView(labels: seq<Label>, values: seq<i64>)
  datatype GaugeView = GaugeView(base: MetricBase, series: seq<GaugeSeriesView>)

  /** The fields of one histogram instance that a scrape reads. */
  datatype HistogramCell = HistogramCell(buckets: seq<u64>, sum: u64, count: u64)
  datatype HistogramSeriesView = HistogramSeriesView(labels: seq<Label>, cells: seq<HistogramCell>)
  datatype HistogramView = HistogramView(
    base: MetricBase, kind: Scheme, start: u64, increment: u64, count: u64,
    series: seq<HistogramSeriesView>)

  datatype MetricsView = MetricsView(
    labels: seq<Label>, counters: seq<CounterView>, gauges: seq<GaugeView>,
    histograms: seq<HistogramView>)

  // ---- lines and labels (prometheus-c.c:421-460) ----

  /** `prometheus_metrics_emit_base`. */
  function HelpTypeText(base: MetricBase): string
  {
    "# HELP " + base.name + " " + base.help + "\n" + "# TYPE " + base.name + " " + base.typeName + "\n"
  }

  function LabelPair(l: Label): string
  {
    l.name + "=\"" + l.value + "\""
  }

  /** The label pairs separated by commas. */
  function JoinedLabels(ls: seq<Label>): string
  {
    if |ls| == 0 then ""
    else if |ls| == 1 then LabelPair(ls[0])
    else JoinedLabels(ls[..|ls| - 1]) + "," + LabelPair(ls[|ls| - 1])
  }

  /** Each label pair followed by a comma, as the emitting loops write them
      before the trailing comma is taken back. */
  function Terminated(ls: seq<Label>): string
  {
    if ls == [] then "" else Terminated(ls[..|ls| - 1]) + LabelPair(ls[|ls| - 1]) + ","
  }

  /** `name` `suffix` `{` labels `} `: what `prometheus_metrics_emit_series_base`
      leaves in the buffer. */
  function SeriesHead(name: string, suffix: string, labels: seq<Label>): string
  {
    name + suffix + "{" + JoinedLabels(labels) + "} "
  }

  /** One sample line: the series head, the value as `%lu`, a newline. */
  function SampleLine(name: string, suffix: string, labels: seq<Label>, v: u64): string
  {
    SeriesHead(name, suffix, labels) + Decimal(v as nat) + "\n"
  }

  function Concat(lines: seq<string>): string
  {
    if lines == [] then "" else Concat(lines[..|lines| - 1]) + lines[|lines| - 1]
  }

  // ---- totals over the live instances of a series ----

  /** `value += hdl->counter.value` over the instances, from 0. */
  function CounterTotal(values: seq<u64>): u64
  {
    if values == [] then 0 else Add64(CounterTotal(values[..|values| - 1]), values[|values| - 1])
  }

  /** `value += hdl->gauge.value` into a `uint64_t`: each signed value is
      converted to unsigned before it is added. */
  function GaugeTotal(values: seq<i64>): u64
  {
    if values == [] then 0 else Add64(GaugeTotal(values[..|values| - 1]), ToU64(values[|values| - 1]))
  }

  /** Bucket `i` of a cell; a cell that is too short contributes nothing. */
  function BucketOf(c: HistogramCell, i: nat): u64
  {
    if i < |c.buckets| then c.buckets[i] else 0
  }

  /** `series->buckets[i]`: bucket `i` summed over the instances; each bucket
      keeps only its own count, there is no running sum across buckets. */
  function BucketTotal(cells: seq<HistogramCell>, i: nat): u64
  {
    if cells == [] then 0 else Add64(BucketTotal(cells[..|cells| - 1], i), BucketOf(cells[|cells| - 1], i))
  }

  function SumTotal(cells: seq<HistogramCell>): u64
  {
    if cells == [] then 0 else Add64(SumTotal(cells[..|cells| - 1]), cells[|cells| - 1].sum)
  }

  function CountTotal(cells: seq<HistogramCell>): u64
  {
    if cells == [] then 0 else Add64(CountTotal(cells[..|cells| - 1]), cells[|cells| - 1].count)
  }

  // ---- families ----

  function CounterSeriesText(labels: seq<Label>, base: MetricBase, ss: seq<CounterSeriesView>): string
  {
    if ss == [] then ""
    else
      var s := ss[|ss| - 1];
      CounterSeriesText(labels, base, ss[..|ss| - 1]) + SampleLine(base.name, "", labels + s.labels, CounterTotal(s.values))
  }

  /** A counter family: HELP and TYPE, one line per series, a blank line. */
  function CounterFamilyText(labels: seq<Label>, c: CounterView): string
  {
    HelpTypeText(c.base) + CounterSeriesText(labels, c.base, c.series) + "\n"
  }

  function GaugeSeriesText(labels: seq<Label>, base: MetricBase, ss: seq<GaugeSeriesView>): string
  {
    if ss == [] then ""
    else
      var s := ss[|ss| - 1];
      GaugeSeriesText(labels, base, ss[..|ss| - 1]) + SampleLine(base.name, "", labels + s.labels, GaugeTotal(s.values))
  }

  /** A gauge family: HELP and TYPE and one line per series, with no blank
      line after it. */
  function GaugeFamilyText(labels: seq<Label>, g: GaugeView): string
  {
    HelpTypeText(g.base) + GaugeSeriesText(labels, g.base, g.series)
  }

  /** The `le` threshold of bucket `i`: `1UL << (i + 1)` or
      `start + increment * (i + 1)`, both as `uint64_t`. */
  function Threshold(kind: Scheme, start: u64, increment: u64, i: nat): u64
  {
    match kind
    case Exponential => Wrap(Pow2(i + 1))
    case Linear => Wrap(start as int + increment as int * (i + 1))
  }

  /** The suffix written after the family name on bucket line `i` of
      `count`; the last bucket's threshold is `+Inf`. The suffix carries its
      own braces, so the label set follows it in a second pair of braces. */
  function BucketSuffix(kind: Scheme, start: u64, increment: u64, count: u64, i: nat): string
  {
    if i + 1 < count as int then "_bucket{le=\"" + Decimal(Threshold(kind, start, increment, i) as nat) + "\"}"
    else "_bucket{le=\"+Inf\"}"
  }

  /** Bucket line `i` of a series. */
  function BucketLine(labels: seq<Label>, h: HistogramView, s: HistogramSeriesView, i: nat): string
  {
    SampleLine(h.base.name, BucketSuffix(h.kind, h.start, h.increment, h.count, i), labels + s.labels, BucketTotal(s.cells, i))
  }

  /** All lines of one histogram series: `count` bucket lines, then `_sum`
      and `_count`. */
  function HistogramSeriesLines(labels: seq<Label>, h: HistogramView, s: HistogramSeriesView): seq<string>
  {
    seq(h.count as int, i requires 0 <= i < h.count as int => BucketLine(labels, h, s, i))
      + [SampleLine(h.base.name, "_sum", labels + s.labels, SumTotal(s.cells)),
         SampleLine(h.base.name, "_count", labels + s.labels, CountTotal(s.cells))]
  }

  function HistogramSeriesText(labels: seq<Label>, h: HistogramView, ss: seq<HistogramSeriesView>): string
  {
    if ss == [] then ""
    else HistogramSeriesText(labels, h, ss[..|ss| - 1]) + Concat(HistogramSeriesLines(labels, h, ss[|ss| - 1]))
  }

  /** A histogram family: HELP and TYPE, the lines of every series, a blank line. */
  function HistogramFamilyText(labels: seq<Label>, h: HistogramView): string
  {
    HelpTypeText(h.base) + HistogramSeriesText(labels, h, h.series) + "\n"
  }

  function CountersText(labels: seq<Label>, cs: seq<CounterView>): string
  {
    if cs == [] then "" else CountersText(labels, cs[..|cs| - 1]) + CounterFamilyText(labels, cs[|cs| - 1])
  }

  function GaugesText(labels: seq<Label>, gs: seq<GaugeView>): string
  {
    if gs == [] then "" else GaugesText(labels, gs[..|gs| - 1]) + GaugeFamilyText(labels, gs[|gs| - 1])
  }

  function HistogramsText(labels: seq<Label>, hs: seq<HistogramView>): string
  {
    if hs == [] then "" else HistogramsText(labels, hs[..|hs| - 1]) + HistogramFamilyText(labels, hs[|hs| - 1])
  }

  /** The whole scrape: every counter family, then every gauge family, then
      every histogram family, each kind in insertion order. */
  function ScrapeText(m: MetricsView): string
  {
    CountersText(m.labels, m.counters) + GaugesText(m.labels, m.gauges) + HistogramsText(m.labels, m.histograms)
  }

  // ---- properties of the rendering ----

  /** Writing every pair with a trailing comma and then taking the last comma
      back leaves exactly the comma-joined pairs. */
  lemma {:induction false} TerminatedIsJoinedWithComma(ls: seq<Label>)
    requires ls != []
    ensures Terminated(ls) == JoinedLabels(ls) + ","
  {
    if |ls| == 1 {
      assert ls[..0] == [];
    } else {
      var init := ls[..|ls| - 1];
      TerminatedIsJoinedWithComma(init);
    }
  }

  /** A series with no labels at all is rendered `{} `, and a non-empty label
      set has no comma before its closing brace. */
  lemma LabelSetShape(name: string, suffix: string, ls: seq<Label>)
    ensures ls == [] ==> SeriesHead(name, suffix, ls) == name + suffix + "{} "
    ensures ls != [] ==> var j := JoinedLabels(ls); |j| > 0 && j[|j| - 1] == '"'
  {
  }

  /** Global labels come first, then the series labels, joined by one comma. */
  lemma {:induction false} GlobalLabelsFirst(globals: seq<Label>, own: seq<Label>)
    requires globals != [] && own != []
    ensures JoinedLabels(globals + own) == JoinedLabels(globals) + "," + JoinedLabels(own)
    decreases |own|
  {
    var all := globals + own;
    if |own| == 1 {
      assert all[..|all| - 1] == globals;
    } else {
      var init := own[..|own| - 1];
      assert all[..|all| - 1] == globals + init;
      GlobalLabelsFirst(globals, init);
    }
  }

  /** The exact sum of the values. */
  function Sum(xs: seq<int>): int
  {
    if xs == [] then 0 else Sum(xs[..|xs| - 1]) + xs[|xs| - 1]
  }

  function CounterInts(values: seq<u64>): seq<int>
  {
    seq(|values|, k requires 0 <= k < |values| => values[k] as int)
  }

  function GaugeInts(values: seq<i64>): seq<int>
  {
    seq(|values|, k requires 0 <= k < |values| => values[k] as int)
  }

  /** A counter series reports the sum of its live instances modulo 2^64,
      which is the exact sum while that stays below 2^64. */
  lemma {:induction false} CounterTotalIsSum(values: seq<u64>)
    ensures CounterTotal(values) == Wrap(Sum(CounterInts(values)))
    ensures Sum(CounterInts(values)) < U64 ==> CounterTotal(values) as int == Sum(CounterInts(values))
  {
    if values != [] {
      var init := values[..|values| - 1];
      CounterTotalIsSum(init);
      assert CounterInts(values)[..|values| - 1] == CounterInts(init);
      Add64IsWrap(CounterTotal(init), values[|values| - 1]);
      WrapAdd(Sum(CounterInts(init)), values[|values| - 1] as int);
    }
  }

  /** A gauge series reports the exact signed sum of its live instances
      modulo 2^64, printed unsigned: a negative total `t` prints as
      `2^64 + t`. */
  lemma {:induction false} GaugeTotalIsSum(values: seq<i64>)
    ensures GaugeTotal(values) == Wrap(Sum(GaugeInts(values)))
    ensures var t := Sum(GaugeInts(values));
      -U64 <= t < 0 ==> GaugeTotal(values) as int == U64 + t
  {
    if values != [] {
      var init := values[..|values| - 1];
      GaugeTotalIsSum(init);
      assert GaugeInts(values)[..|values| - 1] == GaugeInts(init);
      var v := values[|values| - 1];
      Add64IsWrap(GaugeTotal(init), ToU64(v));
      ToU64IsWrap(v);
      WrapAdd(v as int, GaugeTotal(init) as int);
      WrapAdd(Sum(GaugeInts(init)), v as int);
    }
    var t := Sum(GaugeInts(values));
    if -U64 <= t < 0 {
      assert 0 <= U64 + t < U64;
      ModShift(t, 1);
    }
  }

  function Column(cells: seq<HistogramCell>, i: nat): seq<int>
  {
    seq(|cells|, k requires 0 <= k < |cells| => BucketOf(cells[k], i) as int)
  }

  /** Bucket line `i` carries the sum of bucket `i` alone over the instances
      (not a cumulative count), modulo 2^64. */
  lemma {:induction false} BucketTotalIsColumnSum(cells: seq<HistogramCell>, i: nat)
    ensures BucketTotal(cells, i) == Wrap(Sum(Column(cells, i)))
  {
    if cells != [] {
      var init := cells[..|cells| - 1];
      BucketTotalIsColumnSum(init, i);
      assert Column(cells, i)[..|cells| - 1] == Column(init, i);
      Add64IsWrap(BucketTotal(init, i), BucketOf(cells[|cells| - 1], i));
      WrapAdd(Sum(Column(init, i)), BucketOf(cells[|cells| - 1], i) as int);
    }
  }

  /** One sample in bucket `b` of instance `j` (the cells `cells'` differ
      from `cells` only in that bucket, raised by one as `uint64_t`) raises
      the series total of bucket `b` by one and leaves every other bucket
      total as it was. */
  lemma SampleRaisesOneBucketTotal(cells: seq<HistogramCell>, cells': seq<HistogramCell>, j: nat, b: nat, i: nat)
    requires j < |cells| == |cells'| && b < |cells[j].buckets|
    requires forall k :: 0 <= k < |cells| && k != j ==> cells'[k] == cells[k]
    requires cells'[j].buckets == cells[j].buckets[b := Add64(cells[j].buckets[b], 1)]
    ensures BucketTotal(cells', i) == if i == b then Add64(BucketTotal(cells, i), 1) else BucketTotal(cells, i)
  {
    if i == b {
      TotalRaised(cells, cells', j, i);
    } else {
      TotalKept(cells, cells', j, i);
    }
  }

  /** Raising bucket `i` of one cell by one raises the total of bucket `i` by one. */
  lemma {:induction false} TotalRaised(cells: seq<HistogramCell>, cells': seq<HistogramCell>, j: nat, i: nat)
    requires j < |cells| == |cells'|
    requires forall k :: 0 <= k < |cells| && k != j ==> cells'[k] == cells[k]
    requires BucketOf(cells'[j], i) == Add64(BucketOf(cells[j], i), 1)
    ensures BucketTotal(cells', i) == Add64(BucketTotal(cells, i), 1)
    decreases |cells|
  {
    var n := |cells|;
    var t := BucketTotal(cells[..n - 1], i);
    var y := BucketOf(cells[n - 1], i);
    if j == n - 1 {
      assert cells'[..n - 1] == cells[..n - 1];
      Add64Assoc(t, y, 1);
    } else {
      assert cells'[n - 1] == cells[n - 1];
      TotalRaised(cells[..n - 1], cells'[..n - 1], j, i);
      Add64Swap(t, 1, y);
    }
  }

  /** Cells that agree on bucket `i` have the same total of bucket `i`. */
  lemma {:induction false} TotalKept(cells: seq<HistogramCell>, cells': seq<HistogramCell>, j: nat, i: nat)
    requires j < |cells| == |cells'|
    requires forall k :: 0 <= k < |cells| && k != j ==> cells'[k] == cells[k]
    requires BucketOf(cells'[j], i) == BucketOf(cells[j], i)
    ensures BucketTotal(cells', i) == BucketTotal(cells, i)
    decreases |cells|
  {
    var n := |cells|;
    if j == n - 1 {
      assert cells'[..n - 1] == cells[..n - 1];
    } else {
      assert cells'[n - 1] == cells[n - 1];
      TotalKept(cells[..n - 1], cells'[..n - 1], j, i);
    }
  }

  /** Adding `y + d`, or adding `y` and then `d`, gives the same total. */
  lemma Add64Assoc(t: u64, y: u64, d: u64)
    ensures Add64(t, Add64(y, d)) == Add64(Add64(t, y), d)
  {
  }

  /** The order of two additions into a total does not matter. */
  lemma Add64Swap(t: u64, d: u64, y: u64)
    ensures Add64(Add64(t, d), y) == Add64(Add64(t, y), d)
  {
  }

  function SumColumn(cells: seq<HistogramCell>): seq<int>
  {
    seq(|cells|, k requires 0 <= k < |cells| => cells[k].sum as int)
  }

  function CountColumn(cells: seq<HistogramCell>): seq<int>
  {
    seq(|cells|, k requires 0 <= k < |cells| => cells[k].count as int)
  }

  /** The `_sum` line carries the `sum` fields of the instances added up,
      modulo 2^64. */
  lemma {:induction false} SumTotalIsSum(cells: seq<HistogramCell>)
    ensures SumTotal(cells) == Wrap(Sum(SumColumn(cells)))
  {
    if cells != [] {
      var init := cells[..|cells| - 1];
      SumTotalIsSum(init);
      assert SumColumn(cells)[..|cells| - 1] == SumColumn(init);
      Add64IsWrap(SumTotal(init), cells[|cells| - 1].sum);
      WrapAdd(Sum(SumColumn(init)), cells[|cells| - 1].sum as int);
    }
  }

  /** The `_count` line carries the `count` fields of the instances added
      up, modulo 2^64. */
  lemma {:induction false} CountTotalIsSum(cells: seq<HistogramCell>)
    ensures CountTotal(cells) == Wrap(Sum(CountColumn(cells)))
  {
    if cells != [] {
      var init := cells[..|cells| - 1];
      CountTotalIsSum(init);
      assert CountColumn(cells)[..|cells| - 1] == CountColumn(init);
      Add64IsWrap(CountTotal(init), cells[|cells| - 1].count);
      WrapAdd(Sum(CountColumn(init)), cells[|cells| - 1].count as int);
    }
  }

  /** One sample `v` in instance `j` (the cells `cells'` differ from `cells`
      only there, with `sum` raised by `v` as unsigned and `count` by one)
      raises the series' `_sum` by `v` as unsigned and its `_count` by one,
      modulo 2^64. */
  lemma {:induction false} SampleRaisesSumAndCount(cells: seq<HistogramCell>, cells': seq<HistogramCell>, j: nat, v: i64)
    requires j < |cells| == |cells'|
    requires forall k :: 0 <= k < |cells| && k != j ==> cells'[k] == cells[k]
    requires cells'[j].sum == Add64(cells[j].sum, ToU64(v)) && cells'[j].count == Add64(cells[j].count, 1)
    ensures SumTotal(cells') == Add64(SumTotal(cells), ToU64(v))
    ensures CountTotal(cells') == Add64(CountTotal(cells), 1)
    decreases |cells|
  {
    var n := |cells|;
    var s := SumTotal(cells[..n - 1]);
    var c := CountTotal(cells[..n - 1]);
    if j == n - 1 {
      assert cells'[..n - 1] == cells[..n - 1];
      Add64Assoc(s, cells[n - 1].sum, ToU64(v));
      Add64Assoc(c, cells[n - 1].count, 1);
    } else {
      assert cells'[n - 1] == cells[n - 1];
      SampleRaisesSumAndCount(cells[..n - 1], cells'[..n - 1], j, v);
      Add64Swap(s, ToU64(v), cells[n - 1].sum);
      Add64Swap(c, 1, cells[n - 1].count);
    }
  }

  /** Every histogram series renders exactly `count` `_bucket` lines, bucket
      `i` with its own threshold and the last with `+Inf`, then one `_sum`
      line and one `_count` line. */
  lemma HistogramSeriesShape(labels: seq<Label>, h: HistogramView, s: HistogramSeriesView)
    ensures var lines := HistogramSeriesLines(labels, h, s);
      && |lines| == h.count as int + 2
      && (forall i :: 0 <= i < h.count as int ==>
            lines[i] == SampleLine(h.base.name, BucketSuffix(h.kind, h.start, h.increment, h.count, i), labels + s.labels, BucketTotal(s.cells, i)))
      && (h.count >= 1 ==> BucketSuffix(h.kind, h.start, h.increment, h.count, h.count as int - 1) == "_bucket{le=\"+Inf\"}")
      && lines[h.count] == SampleLine(h.base.name, "_sum", labels + s.labels, SumTotal(s.cells))
      && lines[h.count as int + 1] == SampleLine(h.base.name, "_count", labels + s.labels, CountTotal(s.cells))
  {
  }

  /** The `le` thresholds: `2^(i+1)` for the exponential scheme while that
      fits in 64 bits, `start + increment*(i+1)` for the linear one while
      that does. */
  lemma ThresholdValues(kind: Scheme, start: u64, increment: u64, i: nat)
    ensures kind == Exponential && i + 1 < 64 ==> Threshold(kind, start, increment, i) as int == Pow2(i + 1)
    ensures kind == Linear && start as int + increment as int * (i + 1) < U64 ==>
      Threshold(kind, start, increment, i) as int == start as int + increment as int * (i + 1)
  {
    if i + 1 < 64 {
      Pow2Below64(i + 1);
    }
  }

  /** A counter family ends in a blank line: its last line ends in a newline
      and one more newline follows. */
  lemma CounterFamilyEndsBlank(labels: seq<Label>, c: CounterView)
    ensures var t := CounterFamilyText(labels, c); |t| >= 2 && t[|t| - 1] == '\n' && t[|t| - 2] == '\n'
  {
    var body := HelpTypeText(c.base) + CounterSeriesText(labels, c.base, c.series);
    assert body[|body| - 1] == '\n' by {
      if c.series != [] {
        var s := c.series[|c.series| - 1];
        EndsInNewline(CounterSeriesText(labels, c.base, c.series[..|c.series| - 1]),
                      SampleLine(c.base.name, "", labels + s.labels, CounterTotal(s.values)));
      }
    }
  }

  /** A histogram family ends in a blank line as well. */
  lemma HistogramFamilyEndsBlank(labels: seq<Label>, h: HistogramView)
    ensures var t := HistogramFamilyText(labels, h); |t| >= 2 && t[|t| - 1] == '\n' && t[|t| - 2] == '\n'
  {
    var body := HelpTypeText(h.base) + HistogramSeriesText(labels, h, h.series);
    assert body[|body| - 1] == '\n' by {
      if h.series != [] {
        var s := h.series[|h.series| - 1];
        var lines := HistogramSeriesLines(labels, h, s);
        assert lines[..|lines| - 1] + [lines[|lines| - 1]] == lines;
        EndsInNewline(Concat(lines[..|lines| - 1]), lines[|lines| - 1]);
        EndsInNewline(HistogramSeriesText(labels, h, h.series[..|h.series| - 1]), Concat(lines));
      }
    }
  }

  /** A gauge family is not followed by a blank line: its text ends in the
      newline of its last line, after a digit of the last value or the `e`
      of its type `gauge`. */
  lemma GaugeFamilyEndsOnce(labels: seq<Label>, g: GaugeView)
    requires g.base.typeName == "gauge"
    ensures var t := GaugeFamilyText(labels, g); |t| >= 2 && t[|t| - 1] == '\n' && t[|t| - 2] != '\n'
  {
    var head := HelpTypeText(g.base);
    var t := GaugeFamilyText(labels, g);
    if g.series == [] {
      assert t == head;
      assert t[|t| - 2] == 'e';
    } else {
      var s := g.series[|g.series| - 1];
      var last := SampleLine(g.base.name, "", labels + s.labels, GaugeTotal(s.values));
      var d := Decimal(GaugeTotal(s.values) as nat);
      DecimalRoundTrip(GaugeTotal(s.values) as nat);
      assert '0' <= d[|d| - 1] <= '9';
      assert last[|last| - 2] == d[|d| - 1];
      assert t == head + GaugeSeriesText(labels, g.base, g.series[..|g.series| - 1]) + last;
    }
  }

  /** The series line of the counter test program (tests/counter.c:16-41):
      the global label first, then the series label, then the value 11. */
  lemma CounterLineExample()
    ensures SampleLine("test_counter1", "", [Label("global", "root"), Label("test", "test1")], 11)
         == "test_counter1{global=\"root\",test=\"test1\"} 11\n"
  {
    var ls := [Label("global", "root"), Label("test", "test1")];
    assert ls[..1] == [Label("global", "root")];
    assert Decimal(11) == "11";
    var first := "test_counter1" + "{" + LabelPair(ls[0]);
    assert first == "test_counter1{global=\"root\"";
    var both := first + "," + LabelPair(ls[1]);
    assert both == "test_counter1{global=\"root\",test=\"test1\"";
    assert "test_counter1" + "" + "{" + JoinedLabels(ls) == both;
    assert both + "} " + "11" + "\n" == "test_counter1{global=\"root\",test=\"test1\"} 11\n";
  }

  /** The registry of the counter test program cut to its first family:
      global label `global="root"`, counter `test_counter1` with one series
      `test="test1"` whose single instance holds 11. */
  function CounterExampleView(): MetricsView
  {
    MetricsView(
      [Label("global", "root")],
      [CounterView(MetricBase("test_counter1", "Test counter1", "counter"),
                   [CounterSeriesView([Label("test", "test1")], [11])])],
      [], [])
  }

  /** The HELP and TYPE lines of that counter family. */
  lemma HelpTypeExample()
    ensures HelpTypeText(MetricBase("test_counter1", "Test counter1", "counter"))
         == "# HELP test_counter1 Test counter1\n" + "# TYPE test_counter1 counter\n"
  {
    var help := "# HELP " + "test_counter1";
    assert help == "# HELP test_counter1";
    var help' := help + " " + "Test counter1" + "\n";
    assert help' == "# HELP test_counter1 Test counter1\n";
    var type_ := "# TYPE " + "test_counter1";
    assert type_ == "# TYPE test_counter1";
    var type' := type_ + " " + "counter" + "\n";
    assert type' == "# TYPE test_counter1 counter\n";
  }

  /** The scrape of that registry: HELP, TYPE, the series line, a blank line. */
  lemma CounterScrapeExample()
    ensures ScrapeText(CounterExampleView()) ==
      "# HELP test_counter1 Test counter1\n" + "# TYPE test_counter1 counter\n"
      + "test_counter1{global=\"root\",test=\"test1\"} 11\n" + "\n"
  {
    var m := CounterExampleView();
    var c := m.counters[0];
    var s := c.series[0];
    assert m.counters[..0] == [] && c.series[..0] == [] && s.values[..0] == [];
    assert CounterTotal(s.values) == 11;
    assert m.labels + s.labels == [Label("global", "root"), Label("test", "test1")];
    CounterLineExample();
    HelpTypeExample();
    var line := SampleLine("test_counter1", "", [Label("global", "root"), Label("test", "test1")], 11);
    assert CounterSeriesText(m.labels, c.base, c.series) == line;
    assert ScrapeText(m) == HelpTypeText(c.base) + line + "\n";
  }

  /** Every sample line, and so every non-empty series text, ends in a newline. */
  lemma EndsInNewline(before: string, line: string)
    requires |line| > 0 && line[|line| - 1] == '\n'
    ensures var t := before + line; t[|t| - 1] == '\n'
  {
  }
}
