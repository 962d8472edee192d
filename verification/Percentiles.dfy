/** Percentiles as the snapshots report them. */
module Percentiles {
  import opened HistogramModel
  import opened Histogram

  /** Durations in nanoseconds, as int64. */
  datatype Percentiles = Percentiles(p50: int, p95: int, p99: int, max: int)

  /** uint64 reinterpreted as int64. */
  function ToDuration(v: nat): int {
    if v >= TWO64 / 2 then v - TWO64 else v
  }

  /** The one int64 that is the same modulo 2^64. */
  lemma {:induction false} DurationWraps(v: Word, d: int)
    ensures d == ToDuration(v) <==>
              -0x8000_0000_0000_0000 <= d < 0x8000_0000_0000_0000 && d % 0x1_0000_0000_0000_0000 == v
  {
    if -0x8000_0000_0000_0000 <= d < 0 {
      assert (d + 0x1_0000_0000_0000_0000) % 0x1_0000_0000_0000_0000 == d % 0x1_0000_0000_0000_0000;
    }
  }

  function PercentilesOf(s: seq<Sample>): Percentiles {
    var h := Summarize(s);
    Percentiles(ToDuration(PercentileOf(h, 50.0)), ToDuration(PercentileOf(h, 95.0)),
                ToDuration(PercentileOf(h, 99.0)), ToDuration(h.maxV))
  }

  method HistogramPercentiles(h: Histogram) returns (r: Percentiles)
    requires h.Valid()
    ensures r == PercentilesOf(h.samples)
  {
    var p50 := h.Percentile(50.0);
    var p95 := h.Percentile(95.0);
    var p99 := h.Percentile(99.0);
    r := Percentiles(ToDuration(p50), ToDuration(p95), ToDuration(p99), ToDuration(h.maxV));
  }

  /** One sample is every percentile of itself. */
  lemma {:induction false} PercentilesOfOne(v: Sample)
    requires v < TWO64 / 2
    ensures PercentilesOf([v]) == Percentiles(v, v, v, v)
  {
    Extremes([v]);
    assert MinOf([v]) == v && MaxOf([v]) == v;
    PercentileInRange([v], 50.0);
    PercentileInRange([v], 95.0);
    PercentileInRange([v], 99.0);
  }

  /** Below 2^63 ns the reported percentiles are in order, up to the maximum. */
  lemma {:induction false} PercentilesOrdered(s: seq<Sample>)
    requires s != [] && MaxOf(s) < TWO64 / 2
    ensures var r := PercentilesOf(s); 0 < r.p50 <= r.p95 <= r.p99 <= r.max
  {
    PercentileMonotone(s, 50.0, 95.0);
    PercentileMonotone(s, 95.0, 99.0);
    PercentileInRange(s, 50.0);
    PercentileInRange(s, 95.0);
    PercentileInRange(s, 99.0);
    Extremes(s);
  }
}
