/** The registry, its metric families and their series (prometheus-c.c).
    Each collection -- the registry's family lists, a family's series list,
    a series' instance list -- is held as the sequence of its elements in
    insertion order; `IntrusiveList` proves that the list macros behind them
    append at the tail, delete exactly one element and walk in this order.
    Each call is modelled as atomic: the mutexes are not part of the model. */
module Metrics {
  import opened Wrappers
  import opened Words
  import opened IntrusiveList
  import opened Legality
  import opened Instances
  import opened Exposition

  /** `struct prometheus_counter_series`. */
  class CounterSeries {
    const labels: seq<Label>
    var instances: seq<CounterInstance>

    constructor (labels: seq<Label>)
      ensures this.labels == labels && instances == []
    {
      this.labels := labels;
      instances := [];
    }
  }

  /** `struct prometheus_counter`: a counter family. */
  class Counter {
    const base: MetricBase
    var series: seq<CounterSeries>

    constructor (name: string, help: string)
      ensures base == MetricBase(name, help, "counter") && series == []
    {
      base := MetricBase(name, help, "counter");
      series := [];
    }
  }

  /** `struct prometheus_gauge_series`. */
  class GaugeSeries {
    const labels: seq<Label>
    var instances: seq<GaugeInstance>

    constructor (labels: seq<Label>)
      ensures this.labels == labels && instances == []
    {
      this.labels := labels;
      instances := [];
    }
  }

  /** `struct prometheus_gauge`: a gauge family. */
  class Gauge {
    const base: MetricBase
    var series: seq<GaugeSeries>

    constructor (name: string, help: string)
      ensures base == MetricBase(name, help, "gauge") && series == []
    {
      base := MetricBase(name, help, "gauge");
      series := [];
    }
  }

  /** `struct prometheus_histogram_series`: a copy of the family's bucket
      layout, the bucket array a scrape accumulates into, and the instances,
      each with the same layout. */
  class HistogramSeries {
    const labels: seq<Label>
    const kind: Scheme
    const numBuckets: u64
    const start: u64
    const increment: u64
    const buckets: array<u64>
    var instances: seq<HistogramInstance>

    ghost predicate Valid()
      reads this
    {
      && buckets.Length == numBuckets as int
      && forall i <- instances :: i.Valid() && i.kind == kind && i.numBuckets == numBuckets
           && i.start == start && i.increment == increment
    }

    constructor (labels: seq<Label>, kind: Scheme, numBuckets: u64, start: u64, increment: u64)
      ensures Valid() && fresh(buckets) && instances == []
      ensures this.labels == labels && this.kind == kind && this.numBuckets == numBuckets
      ensures this.start == start && this.increment == increment
      ensures buckets[..] == seq(numBuckets as int, _ => 0)
    {
      this.labels := labels;
      this.kind := kind;
      this.numBuckets := numBuckets;
      this.start := start;
      this.increment := increment;
      buckets := new u64[numBuckets as int](_ => 0);
      instances := [];
    }
  }

  /** `struct prometheus_histogram`: a histogram family with its bucket layout. */
  class Histogram {
    const base: MetricBase
    const kind: Scheme
    const count: u64
    const start: u64
    const increment: u64
    var series: seq<HistogramSeries>

    /** Every series carries the family's layout. */
    ghost predicate Valid()
      reads this
    {
      forall s <- series :: s.kind == kind && s.numBuckets == count && s.start == start && s.increment == increment
    }

    constructor (name: string, help: string, kind: Scheme, start: u64, increment: u64, count: u64)
      ensures Valid() && base == MetricBase(name, help, "histogram") && series == []
      ensures this.kind == kind && this.start == start && this.increment == increment && this.count == count
    {
      base := MetricBase(name, help, "histogram");
      this.kind := kind;
      this.count := count;
      this.start := start;
      this.increment := increment;
      series := [];
    }
  }

  /** The label pairs of `names` and `values`, position by position. */
  function LabelsOf(names: seq<Option<string>>, values: seq<Option<string>>): seq<Label>
    requires |names| == |values|
    requires forall k :: 0 <= k < |names| ==> names[k].Some? && values[k].Some?
  {
    seq(|names|, k requires 0 <= k < |names| => Label(names[k].value, values[k].value))
  }

  /** `prometheus_series_base_init` and the label copy of
      `prometheus_metrics_create`: the labels, pair by pair and in order. A
      NULL string would crash `strdup`, so none may be NULL. */
  method CopyLabels(names: seq<Option<string>>, values: seq<Option<string>>) returns (labels: seq<Label>)
    requires |names| == |values|
    requires forall k :: 0 <= k < |names| ==> names[k].Some? && values[k].Some?
    ensures |labels| == |names|
    ensures forall k :: 0 <= k < |names| ==> labels[k] == Label(names[k].value, values[k].value)
    ensures labels == LabelsOf(names, values)
  {
    labels := [];
    var k := 0;
    while k < |names|
      invariant 0 <= k <= |names| && |labels| == k
      invariant forall j :: 0 <= j < k ==> labels[j] == Label(names[j].value, values[j].value)
    {
      labels := labels + [Label(names[k].value, values[k].value)];
      k := k + 1;
    }
  }

  // ---- the read-only view a scrape renders ----

  ghost function CounterSeriesViewOf(s: CounterSeries): CounterSeriesView
    reads s, set i | i in s.instances
  {
    CounterSeriesView(s.labels, seq(|s.instances|, k requires 0 <= k < |s.instances| reads s, set i | i in s.instances => s.instances[k].value))
  }

  ghost function CounterViewOf(c: Counter): CounterView
    reads c, (set s | s in c.series), set s, i | s in c.series && i in s.instances :: i
  {
    CounterView(c.base, seq(|c.series|, k requires 0 <= k < |c.series|
                                           reads c, (set s | s in c.series), set s, i | s in c.series && i in s.instances :: i =>
                                           assert c.series[k] in c.series; CounterSeriesViewOf(c.series[k])))
  }

  ghost function GaugeSeriesViewOf(s: GaugeSeries): GaugeSeriesView
    reads s, set i | i in s.instances
  {
    GaugeSeriesView(s.labels, seq(|s.instances|, k requires 0 <= k < |s.instances| reads s, set i | i in s.instances => s.instances[k].value))
  }

  ghost function GaugeViewOf(g: Gauge): GaugeView
    reads g, (set s | s in g.series), set s, i | s in g.series && i in s.instances :: i
  {
    GaugeView(g.base, seq(|g.series|, k requires 0 <= k < |g.series|
                                         reads g, (set s | s in g.series), set s, i | s in g.series && i in s.instances :: i =>
                                         assert g.series[k] in g.series; GaugeSeriesViewOf(g.series[k])))
  }

  ghost function HistogramCellOf(i: HistogramInstance): HistogramCell
    reads i, i.buckets
  {
    HistogramCell(i.buckets[..], i.sum, i.count)
  }

  ghost function HistogramSeriesViewOf(s: HistogramSeries): HistogramSeriesView
    reads s, (set i | i in s.instances), (set i | i in s.instances :: i.buckets)
  {
    HistogramSeriesView(s.labels, seq(|s.instances|, k requires 0 <= k < |s.instances|
                                                       reads s, (set i | i in s.instances), (set i | i in s.instances :: i.buckets) =>
                                                       HistogramCellOf(s.instances[k])))
  }

  ghost function HistogramViewOf(h: Histogram): HistogramView
    reads h, (set s | s in h.series), (set s, i | s in h.series && i in s.instances :: i),
          (set s, i | s in h.series && i in s.instances :: i.buckets)
  {
    HistogramView(h.base, h.kind, h.start, h.increment, h.count,
                  seq(|h.series|, k requires 0 <= k < |h.series|
                                     reads h, (set s | s in h.series), (set s, i | s in h.series && i in s.instances :: i),
                                           (set s, i | s in h.series && i in s.instances :: i.buckets) =>
                                     assert h.series[k] in h.series; HistogramSeriesViewOf(h.series[k])))
  }

  /** `prometheus_counter_destroy`: while the family has a series, the head
      series is deleted from the family's list and its instance list is
      emptied the same way. Afterwards the family and each of its former
      series are empty. */
  method DestroyCounter(c: Counter)
    modifies c, set s | s in c.series
    ensures c.series == []
    ensures forall s <- old(c.series) :: s.instances == []
  {
    ghost var all := c.series;
    ghost var done := 0;
    while c.series != []
      invariant 0 <= done <= |all| && c.series == all[done..]
      invariant forall j :: 0 <= j < done ==> all[j].instances == []
      decreases |c.series|
    {
      var s := c.series[0];
      c.series := Without(c.series, 0);
      while s.instances != []
        invariant forall j :: 0 <= j < done ==> all[j].instances == []
        modifies s
        decreases |s.instances|
      {
        s.instances := Without(s.instances, 0);
      }
      assert all[done..][1..] == all[done + 1..];
      done := done + 1;
    }
  }

  /** `prometheus_gauge_destroy`, as `DestroyCounter`. */
  method DestroyGauge(g: Gauge)
    modifies g, set s | s in g.series
    ensures g.series == []
    ensures forall s <- old(g.series) :: s.instances == []
  {
    ghost var all := g.series;
    ghost var done := 0;
    while g.series != []
      invariant 0 <= done <= |all| && g.series == all[done..]
      invariant forall j :: 0 <= j < done ==> all[j].instances == []
      decreases |g.series|
    {
      var s := g.series[0];
      g.series := Without(g.series, 0);
      while s.instances != []
        invariant forall j :: 0 <= j < done ==> all[j].instances == []
        modifies s
        decreases |s.instances|
      {
        s.instances := Without(s.instances, 0);
      }
      assert all[done..][1..] == all[done + 1..];
      done := done + 1;
    }
  }

  /** `prometheus_histogram_destroy`, as `DestroyCounter`; freeing the
      bucket arrays has no counterpart here. */
  method DestroyHistogram(h: Histogram)
    modifies h, set s | s in h.series
    ensures h.series == []
    ensures forall s <- old(h.series) :: s.instances == []
  {
    ghost var all := h.series;
    ghost var done := 0;
    while h.series != []
      invariant 0 <= done <= |all| && h.series == all[done..]
      invariant forall j :: 0 <= j < done ==> all[j].instances == []
      decreases |h.series|
    {
      var s := h.series[0];
      h.series := Without(h.series, 0);
      while s.instances != []
        invariant forall j :: 0 <= j < done ==> all[j].instances == []
        modifies s
        decreases |s.instances|
      {
        s.instances := Without(s.instances, 0);
      }
      assert all[done..][1..] == all[done + 1..];
      done := done + 1;
    }
  }

  /** `struct prometheus_metrics`: the registry. Besides the three family
      lists it keeps ghost footprints: `Repr` holds every family and series,
      `Cells` every instance and the bucket array of every histogram
      instance, and `Scratch` the bucket arrays of the histogram series,
      which only a scrape writes. */
  class Metrics {
    const labels: seq<Label>
    var counters: seq<Counter>
    var gauges: seq<Gauge>
    var histograms: seq<Histogram>
    ghost var counterSeries: set<CounterSeries>
    ghost var gaugeSeries: set<GaugeSeries>
    ghost var histogramSeries: set<HistogramSeries>
    ghost var Repr: set<object>
    ghost var Cells: set<object>
    ghost var Scratch: set<array<u64>>

    ghost predicate Valid()
      reads this, Repr
    {
      && (forall c <- counters :: c in Repr && c.base.typeName == "counter" && forall s <- c.series :: s in counterSeries)
      && (forall g <- gauges :: g in Repr && g.base.typeName == "gauge" && forall s <- g.series :: s in gaugeSeries)
      && (forall h <- histograms :: h in Repr && h.Valid() && h.base.typeName == "histogram"
            && forall s <- h.series :: s in histogramSeries)
      && (forall s <- counterSeries :: s in Repr && forall i <- s.instances :: i in Cells)
      && (forall s <- gaugeSeries :: s in Repr && forall i <- s.instances :: i in Cells)
      && (forall s <- histogramSeries :: s in Repr && s.Valid() && s.buckets in Scratch
            && forall i <- s.instances :: i in Cells && i.buckets in Cells)
      && Cells !! Scratch && Repr !! Scratch
    }

    /** What a scrape renders: the global labels and, for every family in
        insertion order, its series in insertion order with the current
        values of their instances. */
    ghost function Snapshot(): (v: MetricsView)
      requires Valid()
      reads this, Repr, Cells
      ensures v.labels == labels
      ensures |v.counters| == |counters| && |v.gauges| == |gauges| && |v.histograms| == |histograms|
      ensures forall k :: 0 <= k < |counters| ==> v.counters[k] == CounterViewOf(counters[k])
      ensures forall k :: 0 <= k < |gauges| ==> v.gauges[k] == GaugeViewOf(gauges[k])
      ensures forall k :: 0 <= k < |histograms| ==> v.histograms[k] == HistogramViewOf(histograms[k])
    {
      MetricsView(
        labels,
        seq(|counters|, k requires 0 <= k < |counters| && Valid() reads this, Repr, Cells => CounterViewOf(counters[k])),
        seq(|gauges|, k requires 0 <= k < |gauges| && Valid() reads this, Repr, Cells => GaugeViewOf(gauges[k])),
        seq(|histograms|, k requires 0 <= k < |histograms| && Valid() reads this, Repr, Cells => HistogramViewOf(histograms[k])))
    }

    /** `prometheus_metrics_create`: an empty registry with a copy of the
        global labels (which are not validated). */
    constructor (labelNames: seq<Option<string>>, labelValues: seq<Option<string>>)
      requires |labelNames| == |labelValues|
      requires forall k :: 0 <= k < |labelNames| ==> labelNames[k].Some? && labelValues[k].Some?
      ensures Valid()
      ensures |labels| == |labelNames|
      ensures forall k :: 0 <= k < |labelNames| ==> labels[k] == Label(labelNames[k].value, labelValues[k].value)
      ensures counters == [] && gauges == [] && histograms == []
      ensures Repr == {} && Cells == {} && Scratch == {}
    {
      var copied := CopyLabels(labelNames, labelValues);
      labels := copied;
      counters, gauges, histograms := [], [], [];
      counterSeries, gaugeSeries, histogramSeries := {}, {}, {};
      Repr, Cells, Scratch := {}, {}, {};
    }

    /** `prometheus_metrics_add_counter`: an illegal name gives NULL and
        changes nothing; otherwise one new, empty counter family is linked
        at the tail of the counter list. The help text is not checked. */
    method AddCounter(name: Option<string>, help: string) returns (c: Counter?)
      requires Valid()
      modifies this
      ensures Valid()
      ensures c == null <==> !IsLegalName(name)
      ensures c == null ==> unchanged(this)
      ensures c != null ==> && fresh(c) && c.base == MetricBase(name.value, help, "counter") && c.series == []
                            && counters == old(counters) + [c] && Repr == old(Repr) + {c}
      ensures gauges == old(gauges) && histograms == old(histograms)
      ensures counterSeries == old(counterSeries) && gaugeSeries == old(gaugeSeries)
      ensures histogramSeries == old(histogramSeries) && Cells == old(Cells) && Scratch == old(Scratch)
    {
      var legal := LegalName(name);
      if !legal {
        return null;
      }
      c := new Counter(name.value, help);
      counters, Repr := counters + [c], Repr + {c};
    }

    /** `prometheus_metrics_add_gauge`, as `AddCounter` with type "gauge". */
    method AddGauge(name: Option<string>, help: string) returns (g: Gauge?)
      requires Valid()
      modifies this
      ensures Valid()
      ensures g == null <==> !IsLegalName(name)
      ensures g == null ==> unchanged(this)
      ensures g != null ==> && fresh(g) && g.base == MetricBase(name.value, help, "gauge") && g.series == []
                            && gauges == old(gauges) + [g] && Repr == old(Repr) + {g}
      ensures counters == old(counters) && histograms == old(histograms)
      ensures counterSeries == old(counterSeries) && gaugeSeries == old(gaugeSeries)
      ensures histogramSeries == old(histogramSeries) && Cells == old(Cells) && Scratch == old(Scratch)
    {
      var legal := LegalName(name);
      if !legal {
        return null;
      }
      g := new Gauge(name.value, help);
      gauges, Repr := gauges + [g], Repr + {g};
    }

    /** The common body of `prometheus_metrics_add_histogram_exponential` and
        `prometheus_metrics_add_histogram_linear`. */
    method AddHistogram(name: Option<string>, help: string, kind: Scheme, start: u64, increment: u64, count: u64)
      returns (h: Histogram?)
      requires Valid()
      modifies this
      ensures Valid()
      ensures h == null <==> !IsLegalName(name)
      ensures h == null ==> unchanged(this)
      ensures h != null ==> && fresh(h) && h.base == MetricBase(name.value, help, "histogram") && h.series == []
                            && h.kind == kind && h.start == start && h.increment == increment && h.count == count
                            && histograms == old(histograms) + [h] && Repr == old(Repr) + {h}
      ensures counters == old(counters) && gauges == old(gauges)
      ensures counterSeries == old(counterSeries) && gaugeSeries == old(gaugeSeries)
      ensures histogramSeries == old(histogramSeries) && Cells == old(Cells) && Scratch == old(Scratch)
    {
      var legal := LegalName(name);
      if !legal {
        return null;
      }
      h := new Histogram(name.value, help, kind, start, increment, count);
      histograms, Repr := histograms + [h], Repr + {h};
    }

    /** `prometheus_metrics_add_histogram_exponential`: bucket `i` counts
        samples below 2^(i+1); start and increment stay zero. */
    method AddHistogramExponential(name: Option<string>, help: string, count: u64) returns (h: Histogram?)
      requires Valid()
      modifies this
      ensures Valid()
      ensures h == null <==> !IsLegalName(name)
      ensures h == null ==> unchanged(this)
      ensures h != null ==> && fresh(h) && h.base == MetricBase(name.value, help, "histogram") && h.series == []
                            && h.kind == Exponential && h.start == 0 && h.increment == 0 && h.count == count
                            && histograms == old(histograms) + [h] && Repr == old(Repr) + {h}
      ensures counters == old(counters) && gauges == old(gauges)
      ensures counterSeries == old(counterSeries) && gaugeSeries == old(gaugeSeries)
      ensures histogramSeries == old(histogramSeries) && Cells == old(Cells) && Scratch == old(Scratch)
    {
      h := AddHistogram(name, help, Exponential, 0, 0, count);
    }

    /** `prometheus_metrics_add_histogram_linear`: bucket `i` counts samples
        below start + increment*(i+1). */
    method AddHistogramLinear(name: Option<string>, help: string, start: u64, increment: u64, count: u64)
      returns (h: Histogram?)
      requires Valid()
      modifies this
      ensures Valid()
      ensures h == null <==> !IsLegalName(name)
      ensures h == null ==> unchanged(this)
      ensures h != null ==> && fresh(h) && h.base == MetricBase(name.value, help, "histogram") && h.series == []
                            && h.kind == Linear && h.start == start && h.increment == increment && h.count == count
                            && histograms == old(histograms) + [h] && Repr == old(Repr) + {h}
      ensures counters == old(counters) && gauges == old(gauges)
      ensures counterSeries == old(counterSeries) && gaugeSeries == old(gaugeSeries)
      ensures histogramSeries == old(histogramSeries) && Cells == old(Cells) && Scratch == old(Scratch)
    {
      h := AddHistogram(name, help, Linear, start, increment, count);
    }

    /** `prometheus_counter_add_series`: NULL, and nothing linked, when any
        label name or value is illegal; otherwise one new series, holding a
        copy of the labels in order, at the tail of the family's series. */
    method AddCounterSeries(c: Counter, names: seq<Option<string>>, values: seq<Option<string>>)
      returns (s: CounterSeries?)
      requires Valid() && c in counters && |names| == |values|
      modifies this, c
      ensures Valid()
      ensures s == null <==> !LabelsLegal(names, values)
      ensures s == null ==> unchanged(this, c)
      ensures s != null ==> && fresh(s) && s.instances == [] && |s.labels| == |names|
                            && (forall k :: 0 <= k < |names| ==> s.labels[k] == Label(names[k].value, values[k].value))
                            && c.series == old(c.series) + [s]
                            && counterSeries == old(counterSeries) + {s} && Repr == old(Repr) + {s}
      ensures counters == old(counters) && gauges == old(gauges) && histograms == old(histograms)
      ensures gaugeSeries == old(gaugeSeries) && histogramSeries == old(histogramSeries)
      ensures Cells == old(Cells) && Scratch == old(Scratch)
    {
      var legal := LegalLabels(names, values);
      if !legal {
        return null;
      }
      s := LinkCounterSeries(c, LabelsOf(names, values));
    }

    /** The part of `prometheus_counter_add_series` after validation: a new
        series with the given labels at the tail of the family's series. */
    method LinkCounterSeries(c: Counter, labels: seq<Label>) returns (s: CounterSeries)
      requires Valid() && c in counters
      modifies this, c
      ensures Valid()
      ensures fresh(s) && s.instances == [] && s.labels == labels
      ensures c.series == old(c.series) + [s] && counterSeries == old(counterSeries) + {s} && Repr == old(Repr) + {s}
      ensures counters == old(counters) && gauges == old(gauges) && histograms == old(histograms)
      ensures gaugeSeries == old(gaugeSeries) && histogramSeries == old(histogramSeries)
      ensures Cells == old(Cells) && Scratch == old(Scratch)
    {
      s := new CounterSeries(labels);
      c.series, counterSeries, Repr := c.series + [s], counterSeries + {s}, Repr + {s};
    }

    /** `prometheus_gauge_add_series`, as `AddCounterSeries`. */
    method AddGaugeSeries(g: Gauge, names: seq<Option<string>>, values: seq<Option<string>>)
      returns (s: GaugeSeries?)
      requires Valid() && g in gauges && |names| == |values|
      modifies this, g
      ensures Valid()
      ensures s == null <==> !LabelsLegal(names, values)
      ensures s == null ==> unchanged(this, g)
      ensures s != null ==> && fresh(s) && s.instances == [] && |s.labels| == |names|
                            && (forall k :: 0 <= k < |names| ==> s.labels[k] == Label(names[k].value, values[k].value))
                            && g.series == old(g.series) + [s]
                            && gaugeSeries == old(gaugeSeries) + {s} && Repr == old(Repr) + {s}
      ensures counters == old(counters) && gauges == old(gauges) && histograms == old(histograms)
      ensures counterSeries == old(counterSeries) && histogramSeries == old(histogramSeries)
      ensures Cells == old(Cells) && Scratch == old(Scratch)
    {
      var legal := LegalLabels(names, values);
      if !legal {
        return null;
      }
      s := LinkGaugeSeries(g, LabelsOf(names, values));
    }

    /** The part of `prometheus_gauge_add_series` after validation. */
    method LinkGaugeSeries(g: Gauge, labels: seq<Label>) returns (s: GaugeSeries)
      requires Valid() && g in gauges
      modifies this, g
      ensures Valid()
      ensures fresh(s) && s.instances == [] && s.labels == labels
      ensures g.series == old(g.series) + [s] && gaugeSeries == old(gaugeSeries) + {s} && Repr == old(Repr) + {s}
      ensures counters == old(counters) && gauges == old(gauges) && histograms == old(histograms)
      ensures counterSeries == old(counterSeries) && histogramSeries == old(histogramSeries)
      ensures Cells == old(Cells) && Scratch == old(Scratch)
    {
      s := new GaugeSeries(labels);
      g.series, gaugeSeries, Repr := g.series + [s], gaugeSeries + {s}, Repr + {s};
    }

    /** `prometheus_histogram_add_series`: as `AddCounterSeries`; the new
        series also copies the family's layout and gets a zeroed bucket array
        of `count` entries. */
    method AddHistogramSeries(h: Histogram, names: seq<Option<string>>, values: seq<Option<string>>)
      returns (s: HistogramSeries?)
      requires Valid() && h in histograms && |names| == |values|
      modifies this, h
      ensures Valid()
      ensures s == null <==> !LabelsLegal(names, values)
      ensures s == null ==> unchanged(this, h)
      ensures s != null ==> && fresh(s) && fresh(s.buckets) && s.instances == [] && |s.labels| == |names|
                            && (forall k :: 0 <= k < |names| ==> s.labels[k] == Label(names[k].value, values[k].value))
                            && s.kind == h.kind && s.numBuckets == h.count && s.start == h.start && s.increment == h.increment
                            && s.buckets[..] == seq(h.count as int, _ => 0)
                            && h.series == old(h.series) + [s]
                            && histogramSeries == old(histogramSeries) + {s} && Repr == old(Repr) + {s}
                            && Scratch == old(Scratch) + {s.buckets}
      ensures counters == old(counters) && gauges == old(gauges) && histograms == old(histograms)
      ensures counterSeries == old(counterSeries) && gaugeSeries == old(gaugeSeries) && Cells == old(Cells)
    {
      var legal := LegalLabels(names, values);
      if !legal {
        return null;
      }
      s := new HistogramSeries(LabelsOf(names, values), h.kind, h.count, h.start, h.increment);
      LinkHistogramSeries(h, s);
    }

    /** The `list_append` of `prometheus_histogram_add_series`: a new, empty
        series with the family's layout (prometheus-c.c:870-874) joins the
        tail of the family's series. */
    method LinkHistogramSeries(h: Histogram, s: HistogramSeries)
      requires Valid() && h in histograms
      requires s !in Repr && s.buckets !in Cells && s.buckets !in Repr && s.buckets !in Scratch
      requires s.Valid() && s.instances == []
      requires s.kind == h.kind && s.numBuckets == h.count && s.start == h.start && s.increment == h.increment
      modifies this, h
      ensures Valid()
      ensures h.series == old(h.series) + [s] && histogramSeries == old(histogramSeries) + {s} && Repr == old(Repr) + {s}
      ensures Scratch == old(Scratch) + {s.buckets}
      ensures counters == old(counters) && gauges == old(gauges) && histograms == old(histograms)
      ensures counterSeries == old(counterSeries) && gaugeSeries == old(gaugeSeries) && Cells == old(Cells)
    {
      h.series, histogramSeries, Repr, Scratch := h.series + [s], histogramSeries + {s}, Repr + {s}, Scratch + {s.buckets};
    }

    /** `prometheus_counter_series_create_instance`: a zeroed instance at the
        tail of the series. */
    method CreateCounterInstance(s: CounterSeries) returns (i: CounterInstance)
      requires Valid() && s in counterSeries
      modifies this, s
      ensures Valid()
      ensures fresh(i) && i.value == 0
      ensures s.instances == old(s.instances) + [i] && Cells == old(Cells) + {i}
      ensures counters == old(counters) && gauges == old(gauges) && histograms == old(histograms)
      ensures counterSeries == old(counterSeries) && gaugeSeries == old(gaugeSeries)
      ensures histogramSeries == old(histogramSeries) && Repr == old(Repr) && Scratch == old(Scratch)
    {
      i := new CounterInstance();
      s.instances, Cells := s.instances + [i], Cells + {i};
    }

    /** `prometheus_gauge_series_create_instance`: a zeroed instance at the
        tail of the series. */
    method CreateGaugeInstance(s: GaugeSeries) returns (i: GaugeInstance)
      requires Valid() && s in gaugeSeries
      modifies this, s
      ensures Valid()
      ensures fresh(i) && i.value == 0
      ensures s.instances == old(s.instances) + [i] && Cells == old(Cells) + {i}
      ensures counters == old(counters) && gauges == old(gauges) && histograms == old(histograms)
      ensures counterSeries == old(counterSeries) && gaugeSeries == old(gaugeSeries)
      ensures histogramSeries == old(histogramSeries) && Repr == old(Repr) && Scratch == old(Scratch)
    {
      i := new GaugeInstance();
      s.instances, Cells := s.instances + [i], Cells + {i};
    }

    /** `prometheus_histogram_series_create_instance`: an instance with the
        series' layout, zero `sum` and `count` and a zeroed bucket array of
        `numBuckets` entries, at the tail of the series. */
    method CreateHistogramInstance(s: HistogramSeries) returns (i: HistogramInstance)
      requires Valid() && s in histogramSeries
      modifies this, s
      ensures Valid()
      ensures fresh(i) && fresh(i.buckets) && i.Valid()
      ensures i.kind == s.kind && i.numBuckets == s.numBuckets && i.start == s.start && i.increment == s.increment
      ensures i.buckets[..] == seq(s.numBuckets as int, _ => 0) && i.sum == 0 && i.count == 0
      ensures s.instances == old(s.instances) + [i] && Cells == old(Cells) + {i, i.buckets}
      ensures counters == old(counters) && gauges == old(gauges) && histograms == old(histograms)
      ensures counterSeries == old(counterSeries) && gaugeSeries == old(gaugeSeries)
      ensures histogramSeries == old(histogramSeries) && Repr == old(Repr) && Scratch == old(Scratch)
    {
      i := new HistogramInstance(s.kind, s.start, s.increment, s.numBuckets);
      s.instances, Cells := s.instances + [i], Cells + {i, i.buckets};
    }

    /** Every series of a counter family is in `counterSeries`; the part of
        `Valid` that tearing the counter families down relies on. */
    ghost predicate CountersFiled()
      reads this, set c | c in counters
    {
      forall c <- counters :: forall s <- c.series :: s in counterSeries
    }

    /** The counter loop of `prometheus_metrics_destroy`: the head family is
        deleted from the list and destroyed until the list is empty. */
    method DestroyCounters()
      requires CountersFiled()
      modifies this, (set c | c in counters), counterSeries
      ensures counters == []
      ensures Repr == old(Repr) && Cells == old(Cells) && Scratch == old(Scratch)
      ensures counterSeries == old(counterSeries) && gaugeSeries == old(gaugeSeries)
      ensures histogramSeries == old(histogramSeries) && gauges == old(gauges) && histograms == old(histograms)
      ensures forall c <- old(counters) :: c.series == [] && forall s <- old(c.series) :: s.instances == []
    {
      ghost var all := counters;
      ghost var done := 0;
      ghost var emptied: set<CounterSeries> := {};
      while counters != []
        invariant Repr == old(Repr) && Cells == old(Cells) && Scratch == old(Scratch)
        invariant counterSeries == old(counterSeries) && gaugeSeries == old(gaugeSeries)
        invariant histogramSeries == old(histogramSeries) && gauges == old(gauges) && histograms == old(histograms)
        invariant 0 <= done <= |all| && counters == all[done..]
        invariant forall j :: 0 <= j < done ==> all[j].series == []
        invariant forall s <- emptied :: s.instances == []
        invariant forall f <- all :: f.series == old(f.series) || (f.series == [] && forall s <- old(f.series) :: s in emptied)
        decreases |counters|
      {
        var c := counters[0];
        assert c in counters;
        counters := Without(counters, 0);
        ghost var ss := c.series;
        DestroyCounter(c);
        emptied := emptied + set s | s in ss;
        assert all[done..][1..] == all[done + 1..];
        done := done + 1;
      }
    }

    /** Every series of a gauge family is in `gaugeSeries`; the part of
        `Valid` that tearing the gauge families down relies on. */
    ghost predicate GaugesFiled()
      reads this, set g | g in gauges
    {
      forall g <- gauges :: forall s <- g.series :: s in gaugeSeries
    }

    /** The gauge loop of `prometheus_metrics_destroy`. */
    method DestroyGauges()
      requires GaugesFiled()
      modifies this, (set g | g in gauges), gaugeSeries
      ensures gauges == []
      ensures Repr == old(Repr) && Cells == old(Cells) && Scratch == old(Scratch)
      ensures counterSeries == old(counterSeries) && gaugeSeries == old(gaugeSeries)
      ensures histogramSeries == old(histogramSeries) && counters == old(counters) && histograms == old(histograms)
      ensures forall g <- old(gauges) :: g.series == [] && forall s <- old(g.series) :: s.instances == []
    {
      ghost var all := gauges;
      ghost var done := 0;
      ghost var emptied: set<GaugeSeries> := {};
      while gauges != []
        invariant Repr == old(Repr) && Cells == old(Cells) && Scratch == old(Scratch)
        invariant counterSeries == old(counterSeries) && gaugeSeries == old(gaugeSeries)
        invariant histogramSeries == old(histogramSeries) && counters == old(counters) && histograms == old(histograms)
        invariant 0 <= done <= |all| && gauges == all[done..]
        invariant forall j :: 0 <= j < done ==> all[j].series == []
        invariant forall s <- emptied :: s.instances == []
        invariant forall f <- all :: f.series == old(f.series) || (f.series == [] && forall s <- old(f.series) :: s in emptied)
        decreases |gauges|
      {
        var g := gauges[0];
        assert g in gauges;
        gauges := Without(gauges, 0);
        ghost var ss := g.series;
        DestroyGauge(g);
        emptied := emptied + set s | s in ss;
        assert all[done..][1..] == all[done + 1..];
        done := done + 1;
      }
    }

    /** Every series of a histogram family is in `histogramSeries`; the part of
        `Valid` that tearing the histogram families down relies on. */
    ghost predicate HistogramsFiled()
      reads this, set h | h in histograms
    {
      forall h <- histograms :: forall s <- h.series :: s in histogramSeries
    }

    /** The histogram loop of `prometheus_metrics_destroy`. */
    method DestroyHistograms()
      requires HistogramsFiled()
      modifies this, (set h | h in histograms), histogramSeries
      ensures histograms == []
      ensures Repr == old(Repr) && Cells == old(Cells) && Scratch == old(Scratch)
      ensures counterSeries == old(counterSeries) && gaugeSeries == old(gaugeSeries)
      ensures histogramSeries == old(histogramSeries) && counters == old(counters) && gauges == old(gauges)
      ensures forall h <- old(histograms) :: h.series == [] && forall s <- old(h.series) :: s.instances == []
    {
      ghost var all := histograms;
      ghost var done := 0;
      ghost var emptied: set<HistogramSeries> := {};
      while histograms != []
        invariant Repr == old(Repr) && Cells == old(Cells) && Scratch == old(Scratch)
        invariant counterSeries == old(counterSeries) && gaugeSeries == old(gaugeSeries)
        invariant histogramSeries == old(histogramSeries) && counters == old(counters) && gauges == old(gauges)
        invariant 0 <= done <= |all| && histograms == all[done..]
        invariant forall j :: 0 <= j < done ==> all[j].series == []
        invariant forall s <- emptied :: s.instances == []
        invariant forall f <- all :: f.series == old(f.series) || (f.series == [] && forall s <- old(f.series) :: s in emptied)
        decreases |histograms|
      {
        var h := histograms[0];
        histograms := Without(histograms, 0);
        emptied := emptied + set s | s in h.series;
        DestroyHistogram(h);
        assert all[done..][1..] == all[done + 1..];
        done := done + 1;
      }
    }

    /** `prometheus_metrics_destroy`: the counter, gauge and histogram lists
        are emptied in this order, and every family and series that was in
        the registry is left empty. */
    method Destroy()
      requires Valid()
      modifies this, Repr
      ensures counters == [] && gauges == [] && histograms == []
      ensures forall c <- old(counters) :: c.series == [] && forall s <- old(c.series) :: s.instances == []
      ensures forall g <- old(gauges) :: g.series == [] && forall s <- old(g.series) :: s.instances == []
      ensures forall h <- old(histograms) :: h.series == [] && forall s <- old(h.series) :: s.instances == []
    {
      DestroyCounters();
      DestroyGauges();
      DestroyHistograms();
    }
  }
}
