/** `prometheus_metrics_scrape` and the emitters it calls (prometheus-c.c),
    proved to write exactly `ScrapeText` of the registry as it was when the
    scrape began. The buffer is modelled as the string written into it; its
    size is not checked by the C code and is not modelled beyond the zero
    test. Each `list_foreach` is a walk over the sequence of the list
    (`IntrusiveList.Walk` proves the two visit the same elements). */
module Scrape {
  import opened Words
  import opened Instances
  import opened Exposition
  import opened Metrics
  import opened Wrappers
  import opened Legality

  /** `prometheus_metrics_emit_series_base`: the name and suffix, `{`, every
      global and then every series label pair followed by a comma, the last
      comma taken back, and `} `. */
  method EmitSeriesBase(globals: seq<Label>, suffix: string, name: string, own: seq<Label>) returns (out: string)
    ensures out == SeriesHead(name, suffix, globals + own)
  {
    var pairs := "";
    var i := 0;
    while i < |globals|
      invariant 0 <= i <= |globals|
      invariant pairs == Terminated(globals[..i])
    {
      assert globals[..i + 1][..i] == globals[..i];
      pairs := pairs + LabelPair(globals[i]) + ",";
      i := i + 1;
    }
    assert globals[..i] == globals + own[..0];
    i := 0;
    while i < |own|
      invariant 0 <= i <= |own|
      invariant pairs == Terminated(globals + own[..i])
    {
      assert (globals + own[..i + 1])[..|globals| + i] == globals + own[..i];
      pairs := pairs + LabelPair(own[i]) + ",";
      i := i + 1;
    }
    assert own[..i] == own;
    out := name + suffix + "{" + pairs;
    TakeBackComma(name + suffix + "{", globals + own, pairs);
    if out[|out| - 1] == ',' {
      out := out[..|out| - 1];
    }
    out := out + "} ";
  }

  /** The character before the pairs is `{`, and the last character of
      non-empty pairs is the comma to take back. */
  lemma TakeBackComma(open: string, ls: seq<Label>, pairs: string)
    requires pairs == Terminated(ls) && |open| > 0 && open[|open| - 1] == '{'
    ensures var out := open + pairs;
      && (ls == [] ==> out[|out| - 1] == '{' && out == open + JoinedLabels(ls))
      && (ls != [] ==> out[|out| - 1] == ',' && out[..|out| - 1] == open + JoinedLabels(ls))
  {
    if ls == [] {
      assert open + pairs == open;
    } else {
      TerminatedIsJoinedWithComma(ls);
      var out := open + pairs;
      assert out[..|out| - 1] == open + JoinedLabels(ls);
    }
  }

  /** The instance loop of a counter series: `value += hdl->counter.value`
      from zero. */
  method CounterSeriesTotal(s: CounterSeries) returns (value: u64)
    ensures value == CounterTotal(old(CounterSeriesViewOf(s)).values)
  {
    ghost var vs := CounterSeriesViewOf(s).values;
    value := 0;
    var k := 0;
    while k < |s.instances|
      invariant 0 <= k <= |s.instances|
      invariant value == CounterTotal(vs[..k])
    {
      assert vs[..k + 1][..k] == vs[..k];
      value := Add64(value, s.instances[k].value);
      k := k + 1;
    }
    assert vs[..k] == vs;
  }

  /** One counter family: HELP and TYPE, a line per series, a blank line. */
  method EmitCounterFamily(globals: seq<Label>, c: Counter) returns (out: string)
    ensures out == CounterFamilyText(globals, old(CounterViewOf(c)))
  {
    ghost var v := CounterViewOf(c);
    var body := "";
    var k := 0;
    while k < |c.series|
      invariant 0 <= k <= |c.series|
      invariant CounterViewOf(c) == v
      invariant body == CounterSeriesText(globals, c.base, v.series[..k])
    {
      var s := c.series[k];
      assert v.series[k] == CounterSeriesViewOf(s);
      var value := CounterSeriesTotal(s);
      var head := EmitSeriesBase(globals, "", c.base.name, s.labels);
      CounterSeriesStep(globals, c.base, v.series, k);
      body := body + (head + Decimal(value as nat) + "\n");
      k := k + 1;
    }
    assert v.series[..k] == v.series;
    out := HelpTypeText(c.base) + body + "\n";
  }

  /** The instance loop of a gauge series: each `int64_t` value is added to
      a `uint64_t` total from zero. */
  method GaugeSeriesTotal(s: GaugeSeries) returns (value: u64)
    ensures value == GaugeTotal(old(GaugeSeriesViewOf(s)).values)
  {
    ghost var vs := GaugeSeriesViewOf(s).values;
    value := 0;
    var k := 0;
    while k < |s.instances|
      invariant 0 <= k <= |s.instances|
      invariant value == GaugeTotal(vs[..k])
    {
      assert vs[..k + 1][..k] == vs[..k];
      value := Add64(value, ToU64(s.instances[k].value));
      k := k + 1;
    }
    assert vs[..k] == vs;
  }

  /** One gauge family: HELP and TYPE and a line per series. */
  method EmitGaugeFamily(globals: seq<Label>, g: Gauge) returns (out: string)
    ensures out == GaugeFamilyText(globals, old(GaugeViewOf(g)))
  {
    ghost var v := GaugeViewOf(g);
    var body := "";
    var k := 0;
    while k < |g.series|
      invariant 0 <= k <= |g.series|
      invariant GaugeViewOf(g) == v
      invariant body == GaugeSeriesText(globals, g.base, v.series[..k])
    {
      var s := g.series[k];
      assert v.series[k] == GaugeSeriesViewOf(s);
      var value := GaugeSeriesTotal(s);
      var head := EmitSeriesBase(globals, "", g.base.name, s.labels);
      GaugeSeriesStep(globals, g.base, v.series, k);
      body := body + (head + Decimal(value as nat) + "\n");
      k := k + 1;
    }
    assert v.series[..k] == v.series;
    out := HelpTypeText(g.base) + body;
  }

  /** The first instance loop of a histogram series: `sum` and `total`
      accumulate the instances' `sum` and `count`. */
  method HistogramSeriesSums(s: HistogramSeries) returns (sum: u64, total: u64)
    ensures sum == SumTotal(old(HistogramSeriesViewOf(s)).cells)
    ensures total == CountTotal(old(HistogramSeriesViewOf(s)).cells)
  {
    ghost var cells := HistogramSeriesViewOf(s).cells;
    sum, total := 0, 0;
    var k := 0;
    while k < |s.instances|
      invariant 0 <= k <= |s.instances|
      invariant sum == SumTotal(cells[..k]) && total == CountTotal(cells[..k])
    {
      assert cells[..k + 1][..k] == cells[..k];
      sum, total := Add64(sum, s.instances[k].sum), Add64(total, s.instances[k].count);
      k := k + 1;
    }
    assert cells[..k] == cells;
  }

  /** `histogram_series->buckets[i]` is zeroed and bucket `i` of every
      instance is added to it; the other entries are left alone. */
  method RefreshBucket(s: HistogramSeries, i: nat)
    requires s.Valid() && i < s.numBuckets as int
    requires forall inst <- s.instances :: inst.buckets != s.buckets
    modifies s.buckets
    ensures s.buckets[..] == old(s.buckets[..])[i := BucketTotal(old(HistogramSeriesViewOf(s)).cells, i)]
    ensures HistogramSeriesViewOf(s) == old(HistogramSeriesViewOf(s))
  {
    ghost var cells := HistogramSeriesViewOf(s).cells;
    s.buckets[i] := 0;
    var k := 0;
    while k < |s.instances|
      invariant 0 <= k <= |s.instances|
      invariant s.buckets[..] == old(s.buckets[..])[i := BucketTotal(cells[..k], i)]
    {
      assert cells[..k + 1][..k] == cells[..k];
      assert s.instances[k] in s.instances;
      s.buckets[i] := Add64(s.buckets[i], s.instances[k].buckets[i]);
      k := k + 1;
    }
    assert cells[..k] == cells;
  }

  /** The series part of the histogram loop: the sums, then for every bucket
      its refreshed total under its `le` suffix, then `_sum` and `_count`.
      `layout` is the family as a value: its name and bucket layout. The
      series' own bucket array ends up holding the bucket totals. */
  method EmitHistogramSeries(globals: seq<Label>, h: Histogram, s: HistogramSeries, ghost layout: HistogramView)
    returns (out: string)
    requires h.Valid() && s in h.series && s.Valid()
    requires forall inst <- s.instances :: inst.buckets != s.buckets
    requires layout.base == h.base && layout.kind == h.kind && layout.start == h.start
    requires layout.increment == h.increment && layout.count == h.count
    modifies s.buckets
    ensures out == Concat(HistogramSeriesLines(globals, layout, old(HistogramSeriesViewOf(s))))
    ensures forall i :: 0 <= i < h.count as int ==> s.buckets[i] == BucketTotal(old(HistogramSeriesViewOf(s)).cells, i)
  {
    ghost var sv := HistogramSeriesViewOf(s);
    var sum, total := HistogramSeriesSums(s);
    ghost var lines := HistogramSeriesLines(globals, layout, sv);
    out := "";
    var i := 0;
    while i < h.count as int
      invariant 0 <= i <= h.count as int
      invariant HistogramSeriesViewOf(s) == sv
      invariant out == Concat(lines[..i])
      invariant forall j :: 0 <= j < i ==> s.buckets[j] == BucketTotal(sv.cells, j)
    {
      RefreshBucket(s, i);
      var suffix := BucketSuffix(h.kind, h.start, h.increment, h.count, i);
      var head := EmitSeriesBase(globals, suffix, h.base.name, s.labels);
      BucketLineAt(globals, layout, sv, i);
      ConcatStep(lines, i);
      out := out + (head + Decimal(s.buckets[i] as nat) + "\n");
      i := i + 1;
    }
    var head := EmitSeriesBase(globals, "_sum", h.base.name, s.labels);
    ConcatStep(lines, i);
    out := out + (head + Decimal(sum as nat) + "\n");
    head := EmitSeriesBase(globals, "_count", h.base.name, s.labels);
    ConcatStep(lines, i + 1);
    out := out + (head + Decimal(total as nat) + "\n");
    assert lines[..i + 2] == lines;
  }

  /** One histogram family: HELP and TYPE, the lines of every series, a
      blank line. `cells` holds the instances' bucket arrays and `scratch`
      the series' bucket arrays, which are the only memory written. */
  method EmitHistogramFamily(globals: seq<Label>, h: Histogram, ghost cells: set<object>, ghost scratch: set<array<u64>>)
    returns (out: string)
    requires h.Valid() && cells !! scratch
    requires forall s <- h.series :: s.Valid() && s.buckets in scratch && forall i <- s.instances :: i.buckets in cells
    modifies set s | s in h.series :: s.buckets
    ensures out == HistogramFamilyText(globals, old(HistogramViewOf(h)))
  {
    ghost var v := HistogramViewOf(h);
    var body := "";
    var k := 0;
    while k < |h.series|
      invariant 0 <= k <= |h.series|
      invariant HistogramViewOf(h) == v
      invariant body == HistogramSeriesText(globals, v, v.series[..k])
    {
      var s := h.series[k];
      assert s in h.series;
      assert v.series[k] == HistogramSeriesViewOf(s);
      var lines := EmitHistogramSeries(globals, h, s, v);
      HistogramSeriesStep(globals, v, v.series, k);
      body := body + lines;
      k := k + 1;
    }
    assert v.series[..k] == v.series;
    out := HelpTypeText(h.base) + body + "\n";
  }

  /** The counter loop of the scrape, family by family in list order. */
  method EmitCounters(m: Metrics) returns (out: string)
    requires m.Valid()
    ensures unchanged(m, m.Repr, m.Cells)
    ensures out == CountersText(m.labels, old(m.Snapshot()).counters)
  {
    ghost var v := m.Snapshot();
    out := "";
    var k := 0;
    while k < |m.counters|
      invariant 0 <= k <= |m.counters|
      invariant unchanged(m, m.Repr, m.Cells)
      invariant out == CountersText(m.labels, v.counters[..k])
    {
      var family := EmitCounterFamily(m.labels, m.counters[k]);
      CountersStep(m.labels, v.counters, k);
      out := out + family;
      k := k + 1;
    }
    assert v.counters[..k] == v.counters;
  }

  /** The gauge loop of the scrape. */
  method EmitGauges(m: Metrics) returns (out: string)
    requires m.Valid()
    ensures unchanged(m, m.Repr, m.Cells)
    ensures out == GaugesText(m.labels, old(m.Snapshot()).gauges)
  {
    ghost var v := m.Snapshot();
    out := "";
    var k := 0;
    while k < |m.gauges|
      invariant 0 <= k <= |m.gauges|
      invariant unchanged(m, m.Repr, m.Cells)
      invariant out == GaugesText(m.labels, v.gauges[..k])
    {
      var family := EmitGaugeFamily(m.labels, m.gauges[k]);
      GaugesStep(m.labels, v.gauges, k);
      out := out + family;
      k := k + 1;
    }
    assert v.gauges[..k] == v.gauges;
  }

  /** The histogram loop of the scrape. Only the series' bucket arrays are
      written, so the registry stays valid and reports the same values. */
  method EmitHistograms(m: Metrics) returns (out: string)
    requires m.Valid()
    modifies m.Scratch
    ensures unchanged(m, m.Repr, m.Cells)
    ensures out == HistogramsText(m.labels, old(m.Snapshot()).histograms)
  {
    ghost var v := m.Snapshot();
    out := "";
    var k := 0;
    while k < |m.histograms|
      invariant 0 <= k <= |m.histograms|
      invariant out == HistogramsText(m.labels, v.histograms[..k])
    {
      var h := m.histograms[k];
      assert h in m.histograms;
      assert HistogramViewOf(h) == v.histograms[k];
      var family := EmitHistogramFamily(m.labels, h, m.Cells, m.Scratch);
      HistogramsStep(m.labels, v.histograms, k);
      out := out + family;
      k := k + 1;
    }
    assert v.histograms[..k] == v.histograms;
  }

  /** `prometheus_metrics_scrape`: -1 and an empty buffer for a NULL registry
      or a zero buffer size; otherwise the whole exposition of the registry,
      and its length. The registry keeps every value a scrape reads, so a
      second scrape writes the same text. */
  method Scrape(metrics: Metrics?, bufferSize: int) returns (n: int, text: string)
    requires metrics != null ==> metrics.Valid()
    modifies if metrics != null then metrics.Scratch else {}
    ensures metrics == null || bufferSize == 0 ==> n == -1 && text == ""
    ensures metrics != null ==> metrics.Valid() && metrics.Snapshot() == old(metrics.Snapshot())
    ensures metrics != null && bufferSize != 0 ==> text == ScrapeText(old(metrics.Snapshot())) && n == |text|
  {
    if metrics == null || bufferSize == 0 {
      return -1, "";
    }
    var counters := EmitCounters(metrics);
    var gauges := EmitGauges(metrics);
    var histograms := EmitHistograms(metrics);
    text := counters + gauges + histograms;
    n := |text|;
  }

  /** Two scrapes with no mutation in between write the same text: the
      series' bucket arrays are zeroed before they are summed again. */
  method ScrapeTwice(metrics: Metrics, bufferSize: int) returns (first: string, second: string)
    requires metrics.Valid()
    modifies metrics.Scratch
    ensures first == second
  {
    var n1, n2;
    n1, first := Scrape(metrics, bufferSize);
    n2, second := Scrape(metrics, bufferSize);
  }

  /** The registry of the counter test program (tests/counter.c:16-21) cut
      to its first family and series: the global label `global="root"` and
      the counter `test_counter1` with the series `test="test1"`. */
  method CounterFamilySetup() returns (m: Metrics, c: Counter, s: CounterSeries)
    ensures fresh(m) && fresh(s) && m.Valid() && m.Scratch == {}
    ensures m.labels == [Label("global", "root")] && m.counters == [c] && m.gauges == [] && m.histograms == []
    ensures c.base == MetricBase("test_counter1", "Test counter1", "counter") && c.series == [s]
    ensures s.labels == [Label("test", "test1")] && s.instances == [] && s in m.counterSeries
  {
    m := new Metrics([Some("global")], [Some("root")]);
    LegalityExamples();
    var c' := m.AddCounter(Some("test_counter1"), "Test counter1");
    c := c';
    assert IsLegalName(Some("test")) && IsLegalValue(Some("test1"));
    var s' := m.AddCounterSeries(c, [Some("test")], [Some("test1")]);
    s := s';
  }

  /** Then one instance in that series, incremented once and raised by 10
      (tests/counter.c:26-36). */
  method CounterSetup() returns (m: Metrics)
    ensures m.Valid() && m.Scratch == {}
    ensures m.Snapshot() == CounterExampleView()
  {
    var c, s;
    m, c, s := CounterFamilySetup();
    var i := m.CreateCounterInstance(s);
    i.Increment();
    i.Add(10);
    assert s.instances == [i] && i.value == 11;
    assert CounterSeriesViewOf(s) == CounterSeriesView([Label("test", "test1")], [11]);
    assert CounterViewOf(c) == CounterExampleView().counters[0];
  }

  /** That registry scraped into a 4096-byte buffer (tests/counter.c:41):
      the family's HELP and TYPE lines, the series line with the global
      label first and the total 11, and a blank line. */
  method CounterScenario() returns (n: int, text: string)
    ensures text == "# HELP test_counter1 Test counter1\n" + "# TYPE test_counter1 counter\n"
                    + "test_counter1{global=\"root\",test=\"test1\"} 11\n" + "\n"
    ensures n == |text|
  {
    var m := CounterSetup();
    n, text := Scrape(m, 4096);
    CounterScrapeExample();
  }

  // ---- one more element of a sequence, one more piece of text ----

  lemma ConcatStep(lines: seq<string>, i: nat)
    requires i < |lines|
    ensures Concat(lines[..i + 1]) == Concat(lines[..i]) + lines[i]
  {
    assert lines[..i + 1][..i] == lines[..i];
  }

  lemma BucketLineAt(globals: seq<Label>, h: HistogramView, s: HistogramSeriesView, i: nat)
    requires i < h.count as int
    ensures HistogramSeriesLines(globals, h, s)[i] == BucketLine(globals, h, s, i)
  {
  }

  lemma CounterSeriesStep(globals: seq<Label>, base: MetricBase, ss: seq<CounterSeriesView>, k: nat)
    requires k < |ss|
    ensures CounterSeriesText(globals, base, ss[..k + 1])
         == CounterSeriesText(globals, base, ss[..k]) + SampleLine(base.name, "", globals + ss[k].labels, CounterTotal(ss[k].values))
  {
    assert ss[..k + 1][..k] == ss[..k];
  }

  lemma GaugeSeriesStep(globals: seq<Label>, base: MetricBase, ss: seq<GaugeSeriesView>, k: nat)
    requires k < |ss|
    ensures GaugeSeriesText(globals, base, ss[..k + 1])
         == GaugeSeriesText(globals, base, ss[..k]) + SampleLine(base.name, "", globals + ss[k].labels, GaugeTotal(ss[k].values))
  {
    assert ss[..k + 1][..k] == ss[..k];
  }

  lemma HistogramSeriesStep(globals: seq<Label>, h: HistogramView, ss: seq<HistogramSeriesView>, k: nat)
    requires k < |ss|
    ensures HistogramSeriesText(globals, h, ss[..k + 1])
         == HistogramSeriesText(globals, h, ss[..k]) + Concat(HistogramSeriesLines(globals, h, ss[k]))
  {
    assert ss[..k + 1][..k] == ss[..k];
  }

  lemma CountersStep(globals: seq<Label>, cs: seq<CounterView>, k: nat)
    requires k < |cs|
    ensures CountersText(globals, cs[..k + 1]) == CountersText(globals, cs[..k]) + CounterFamilyText(globals, cs[k])
  {
    assert cs[..k + 1][..k] == cs[..k];
  }

  lemma GaugesStep(globals: seq<Label>, gs: seq<GaugeView>, k: nat)
    requires k < |gs|
    ensures GaugesText(globals, gs[..k + 1]) == GaugesText(globals, gs[..k]) + GaugeFamilyText(globals, gs[k])
  {
    assert gs[..k + 1][..k] == gs[..k];
  }

  lemma HistogramsStep(globals: seq<Label>, hs: seq<HistogramView>, k: nat)
    requires k < |hs|
    ensures HistogramsText(globals, hs[..k + 1]) == HistogramsText(globals, hs[..k]) + HistogramFamilyText(globals, hs[k])
  {
    assert hs[..k + 1][..k] == hs[..k];
  }
}
