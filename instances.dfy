/** The instance cells of prometheus-c.h and their inline mutators: the only
    state an application thread writes on the hot path. */
module Instances {
  import opened Words

  /** `enum prometheus_histogram_type`. */
  datatype Scheme = Exponential | Linear

  /** `struct prometheus_counter_instance`: an unsigned 64-bit accumulator. */
  class CounterInstance {
    var value: u64

    /** A fresh cell is zeroed (`prometheus_calloc`). */
    constructor ()
      ensures value == 0
    {
      value := 0;
    }

    /** `prometheus_counter_instance_increment`: `value++`, wrapping at 2^64. */
    method Increment()
      modifies this
      ensures value == Add64(old(value), 1)
    {
      value := Add64(value, 1);
    }

    /** `prometheus_counter_instance_add`: `value += v`, wrapping at 2^64. */
    method Add(v: u64)
      modifies this
      ensures value == Add64(old(value), v)
    {
      value := Add64(value, v);
    }
  }

  /** `struct prometheus_gauge_instance`: a signed 64-bit cell. */
  class GaugeInstance {
    var value: i64

    constructor ()
      ensures value == 0
    {
      value := 0;
    }

    /** `prometheus_gauge_instance_set`. */
    method Set(v: i64)
      modifies this
      ensures value == v
    {
      value := v;
    }

    /** `prometheus_gauge_instance_add`: `value += v` on `int64_t`; signed
        overflow is undefined in C, so the caller keeps the sum in range. */
    method Add(v: i64)
      requires -0x8000_0000_0000_0000 <= value as int + v as int < 0x8000_0000_0000_0000
      modifies this
      ensures value as int == old(value) as int + v as int
    {
      value := value + v;
    }
  }

  /** `__builtin_clzll(x)` for `x != 0`: the number of zero bits above the
      highest set bit of the 64-bit word. */
  function Clz64(x: u64): (n: nat)
    requires x != 0
    ensures n <= 63
  {
    Pow2Is64();
    LeadingZerosFrom(x, 63)
  }

  /** Zero bits counted downwards from bit `bit`, under the bound that no bit
      above `bit` is set (so bit `bit` is set exactly when `x >= 2^bit`). */
  function LeadingZerosFrom(x: u64, bit: nat): (n: nat)
    requires bit < 64 && x != 0 && x as int < Pow2(bit + 1)
    ensures n <= bit
    decreases bit
  {
    if x as int >= Pow2(bit) then 0 else 1 + LeadingZerosFrom(x, bit - 1)
  }

  /** floor(log2 x), the independent reference for the exponential scheme. */
  function Log2(x: nat): nat
    requires x >= 1
  {
    if x == 1 then 0 else 1 + Log2(x / 2)
  }

  lemma {:induction false} Log2Bounds(x: nat)
    requires x >= 1
    ensures Pow2(Log2(x)) <= x < Pow2(Log2(x) + 1)
  {
    if x > 1 {
      Log2Bounds(x / 2);
    }
  }

  lemma Log2Unique(x: nat, k: nat)
    requires Pow2(k) <= x < Pow2(k + 1)
    ensures Log2(x) == k
  {
    Log2Bounds(x);
    var j := Log2(x);
    if j < k {
      Pow2Monotone(j + 1, k);
    } else if j > k {
      Pow2Monotone(k + 1, j);
    }
  }

  lemma {:induction false} LeadingZerosIsLog(x: u64, bit: nat)
    requires bit < 64 && x != 0 && x as int < Pow2(bit + 1)
    ensures LeadingZerosFrom(x, bit) == bit - Log2(x as int)
  {
    if x as int >= Pow2(bit) {
      Log2Unique(x as int, bit);
    } else {
      assert bit > 0;
      LeadingZerosIsLog(x, bit - 1);
    }
  }

  /** `63 - __builtin_clzll(x)` is floor(log2 x). */
  lemma ClzIsLog2(x: u64)
    requires x != 0
    ensures 63 - Clz64(x) == Log2(x as int)
  {
    Pow2Is64();
    LeadingZerosIsLog(x, 63);
  }

  /** The bucket computed before clamping (prometheus-c.h:147-151): for the
      exponential scheme `63 - clzll(v)`, for the linear one
      `(v - start) / increment` in unsigned 64-bit arithmetic. */
  function RawIndex(kind: Scheme, start: u64, increment: u64, v: i64): u64
    requires kind == Exponential ==> v != 0
    requires kind == Linear ==> increment > 0
  {
    match kind
    case Exponential => (63 - Clz64(Wrap(v as int))) as u64
    case Linear => Wrap(Wrap(v as int) as int - start as int) / increment
  }

  /** The bucket a sample falls into (prometheus-c.h:147-155): the raw index,
      clamped to the last bucket. */
  function BucketIndex(kind: Scheme, start: u64, increment: u64, numBuckets: u64, v: i64): (i: u64)
    requires numBuckets >= 1
    requires kind == Exponential ==> v != 0
    requires kind == Linear ==> increment > 0
    ensures i < numBuckets
  {
    var raw := RawIndex(kind, start, increment, v);
    if raw >= numBuckets then numBuckets - 1 else raw
  }

  /** Exponential scheme: a larger positive sample never lands in a lower
      bucket. */
  lemma ExponentialMonotone(numBuckets: u64, v: i64, w: i64)
    requires numBuckets >= 1 && 0 < v <= w
    ensures BucketIndex(Exponential, 0, 0, numBuckets, v) <= BucketIndex(Exponential, 0, 0, numBuckets, w)
  {
    ClzIsLog2(v as u64);
    ClzIsLog2(w as u64);
    Log2Monotone(v as int, w as int);
  }

  lemma Log2Monotone(x: nat, y: nat)
    requires 1 <= x <= y
    ensures Log2(x) <= Log2(y)
  {
    Log2Bounds(x);
    Log2Bounds(y);
    if Log2(x) > Log2(y) {
      Pow2Monotone(Log2(y) + 1, Log2(x));
    }
  }

  /** Linear scheme: from `start` upwards, a larger sample never lands in a
      lower bucket. */
  lemma LinearMonotone(start: u64, increment: u64, numBuckets: u64, v: i64, w: i64)
    requires numBuckets >= 1 && increment > 0
    requires start as int <= v as int <= w as int
    ensures BucketIndex(Linear, start, increment, numBuckets, v) <= BucketIndex(Linear, start, increment, numBuckets, w)
  {
    var d := v as int - start as int;
    var e := w as int - start as int;
    assert RawIndex(Linear, start, increment, v) as int == d / increment as int;
    assert RawIndex(Linear, start, increment, w) as int == e / increment as int;
    DivideMonotone(d, e, increment as int);
  }

  /** Division by a positive number is monotone. */
  lemma DivideMonotone(d: int, e: int, m: int)
    requires m > 0 && 0 <= d <= e
    ensures d / m <= e / m
  {
    assert d == m * (d / m) + d % m;
    DivideAtLeast(e, m, d / m);
  }

  /** Exponential scheme: a positive `v` in [2^k, 2^(k+1)) lands in bucket `k`,
      or in the last bucket when `k` is past it. */
  lemma ExponentialPlacement(numBuckets: u64, v: i64, k: nat)
    requires numBuckets >= 1 && v > 0
    requires Pow2(k) <= v as int < Pow2(k + 1)
    ensures BucketIndex(Exponential, 0, 0, numBuckets, v) as int == if k < numBuckets as int then k else numBuckets as int - 1
  {
    ClzIsLog2(v as u64);
    Log2Unique(v as int, k);
  }

  /** The start and increment of a family do not matter for the exponential
      scheme. */
  lemma ExponentialIgnoresLayout(start: u64, increment: u64, start': u64, increment': u64, numBuckets: u64, v: i64)
    requires numBuckets >= 1 && v != 0
    ensures BucketIndex(Exponential, start, increment, numBuckets, v) == BucketIndex(Exponential, start', increment', numBuckets, v)
  {
  }

  /** A negative sample has no leading zero bits, so the exponential scheme
      puts it in bucket 63, clamped. */
  lemma ExponentialNegative(numBuckets: u64, v: i64)
    requires numBuckets >= 1 && v < 0
    ensures BucketIndex(Exponential, 0, 0, numBuckets, v) as int == if 63 < numBuckets as int then 63 else numBuckets as int - 1
  {
    Pow2Is64();
    assert Wrap(v as int) as int >= Pow2(63);
  }

  /** Linear scheme, `v >= start`: bucket `i` holds the samples in
      [start + increment*i, start + increment*(i+1)), clamped to the last
      bucket. */
  lemma LinearPlacement(start: u64, increment: u64, numBuckets: u64, v: i64, i: nat)
    requires numBuckets >= 1 && increment > 0
    requires start as int + increment as int * i <= v as int < start as int + increment as int * (i + 1)
    ensures BucketIndex(Linear, start, increment, numBuckets, v) as int == if i < numBuckets as int then i else numBuckets as int - 1
  {
    var d := v as int - start as int;
    assert 0 <= d < U64;
    assert RawIndex(Linear, start, increment, v) as int == d / increment as int;
    DivideInRange(d, increment as int, i);
  }

  lemma DivideInRange(d: int, m: int, i: int)
    requires m > 0 && 0 <= i && m * i <= d < m * (i + 1)
    ensures d / m == i
  {
    DivideAtLeast(d, m, i);
    var q := d / m;
    assert d == m * q + d % m;
    if q > i {
      MultiplyMonotone(m, i + 1, q);
    }
  }

  /** `m * n <= d` implies `d / m >= n`. */
  lemma DivideAtLeast(d: int, m: int, n: int)
    requires m > 0 && m * n <= d
    ensures d / m >= n
  {
    var q := d / m;
    assert d == m * q + d % m;
    if q < n {
      MultiplyMonotone(m, q + 1, n);
    }
  }

  lemma MultiplyMonotone(m: int, a: int, b: int)
    requires m > 0 && a <= b
    ensures m * a <= m * b
  {
    assert m * b - m * a == m * (b - a);
  }

  /** Linear scheme, `0 <= v < start`: the unsigned difference wraps round to
      a huge index, which lands in the last bucket as long as the lower
      bound `start + increment * (numBuckets - 1)` of that bucket fits in
      64 bits. */
  lemma LinearBelowStart(start: u64, increment: u64, numBuckets: u64, v: i64)
    requires numBuckets >= 1 && increment > 0
    requires 0 <= v as int < start as int
    requires start as int + increment as int * (numBuckets as int - 1) <= U64
    ensures BucketIndex(Linear, start, increment, numBuckets, v) == numBuckets - 1
  {
    var d := U64 + v as int - start as int;
    assert Wrap(v as int - start as int) as int == d;
    DivideAtLeast(d, increment as int, numBuckets as int - 1);
  }

  /** Placements with 16 exponential buckets: 100 -> 6 and 11 -> 3. */
  lemma ExponentialExamples()
    ensures BucketIndex(Exponential, 0, 0, 16, 100) == 6
    ensures BucketIndex(Exponential, 0, 0, 16, 11) == 3
  {
    assert Pow2(6) == 64 && Pow2(7) == 128 && Pow2(3) == 8 && Pow2(4) == 16;
    ExponentialPlacement(16, 100, 6);
    ExponentialPlacement(16, 11, 3);
  }

  /** Placements with start 10, increment 10 and 10 buckets: 10 -> 0,
      19 -> 0, 20 -> 1, 31 -> 2, and 1000 is clamped to 9. */
  lemma LinearExamples()
    ensures BucketIndex(Linear, 10, 10, 10, 10) == 0
    ensures BucketIndex(Linear, 10, 10, 10, 19) == 0
    ensures BucketIndex(Linear, 10, 10, 10, 20) == 1
    ensures BucketIndex(Linear, 10, 10, 10, 31) == 2
    ensures BucketIndex(Linear, 10, 10, 10, 1000) == 9
  {
    LinearPlacement(10, 10, 10, 10, 0);
    LinearPlacement(10, 10, 10, 19, 0);
    LinearPlacement(10, 10, 10, 20, 1);
    LinearPlacement(10, 10, 10, 31, 2);
    LinearPlacement(10, 10, 10, 1000, 99);
  }

  /** `struct prometheus_histogram_instance`: a private copy of the bucket
      layout, a bucket array of `numBuckets` counters, and `sum` and `count`. */
  class HistogramInstance {
    const kind: Scheme
    const start: u64
    const increment: u64
    const numBuckets: u64
    const buckets: array<u64>
    var sum: u64
    var count: u64

    ghost predicate Valid()
    {
      buckets.Length == numBuckets as int
    }

    /** A zeroed instance with the given layout. */
    constructor (kind: Scheme, start: u64, increment: u64, numBuckets: u64)
      ensures Valid() && fresh(buckets)
      ensures this.kind == kind && this.start == start && this.increment == increment
      ensures this.numBuckets == numBuckets
      ensures buckets[..] == seq(numBuckets as int, _ => 0) && sum == 0 && count == 0
    {
      this.kind := kind;
      this.start := start;
      this.increment := increment;
      this.numBuckets := numBuckets;
      buckets := new u64[numBuckets as int](_ => 0);
      sum, count := 0, 0;
    }

    /** `prometheus_histogram_instance_sample`: exactly one bucket gains one
        (wrapping at 2^64), the others keep their counts, `sum` gains `v`
        converted to unsigned, and `count` gains one. */
    method Sample(v: i64)
      requires Valid() && numBuckets >= 1
      requires kind == Exponential ==> v != 0
      requires kind == Linear ==> increment > 0
      modifies this, buckets
      ensures var i := BucketIndex(kind, start, increment, numBuckets, v) as int;
        buckets[..] == old(buckets[..])[i := Add64(old(buckets[i]), 1)]
      ensures sum == Add64(old(sum), ToU64(v))
      ensures count == Add64(old(count), 1)
    {
      var i := RawIndex(kind, start, increment, v);
      if i >= numBuckets {
        i := numBuckets - 1;
      }
      buckets[i] := Add64(buckets[i], 1);
      sum := Add64(sum, ToU64(v));
      count := Add64(count, 1);
    }
  }
}
