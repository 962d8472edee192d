/** The histogram object: sixty-four counters and four totals, updated in place. The
    counters are an array held by value, so copying them out is a snapshot. */
module Histogram {
  import opened HistogramModel

  class Histogram {
    var buckets: seq<nat>
    var count: nat
    var sum: Word
    var minV: nat
    var maxV: nat
    ghost var samples: seq<Sample>  // everything recorded or merged in since the last reset

    ghost predicate Valid()
      reads this
    {
      |buckets| == BUCKETS && Summary(buckets, count, sum, minV, maxV) == Summarize(samples)
    }

    constructor ()
      ensures Valid() && samples == []
    {
      NoSamples();
      buckets := seq(BUCKETS, i => 0);
      count, sum, minV, maxV := 0, 0, 0, 0;
      samples := [];
    }

    method Record(value: Word)
      requires Valid()
      modifies this
      ensures Valid() && samples == old(samples) + [Counted(value)]
    {
      var v: Sample := if value == 0 then 1 else value;
      hide Summarize;
      var bucket := BucketIndex(v);
      RecordedSummary(Summary(buckets, count, sum, minV, maxV), samples, v);
      buckets := buckets[bucket := buckets[bucket] + 1];
      count := count + 1;
      sum := WrapAdd(sum, v);
      if v > maxV {
        maxV := v;
      }
      if minV == 0 || v < minV {
        minV := v;
      }
      samples := samples + [v];
    }

    method Percentile(p: real) returns (r: nat)
      requires Valid()
      ensures r == PercentileOf(Summarize(samples), p)
    {
      if count == 0 {
        return 0;
      }
      if p <= 0.0 {
        return minV;
      }
      if p >= 100.0 {
        return maxV;
      }
      var target := Ceil(count as real * p / 100.0);
      if target <= 0 {
        target := 1;
      }
      assert target == Target(count, p);
      var cum: nat := 0;
      for i := 0 to BUCKETS
        invariant Scan(buckets, 0, 0, target) == Scan(buckets, i, cum, target)
      {
        cum := cum + buckets[i];
        if cum >= target {
          return BucketEstimate(minV, maxV, i);
        }
      }
      return maxV;
    }

    method Reset()
      modifies this
      ensures Valid() && samples == []
    {
      NoSamples();
      buckets := seq(BUCKETS, i => 0);
      count, sum, minV, maxV := 0, 0, 0, 0;
      samples := [];
    }

    /** Folds other in; other may be this histogram itself. */
    method Merge(other: Histogram)
      requires Valid() && other.Valid()
      modifies this
      ensures Valid() && samples == old(samples) + old(other.samples)
    {
      hide Summarize;
      MergeIsUnion(samples, other.samples);
      ghost var mine := Summary(buckets, count, sum, minV, maxV);
      var otherBuckets := other.buckets;
      var otherCount, otherSum, otherMin, otherMax := other.count, other.sum, other.minV, other.maxV;
      ghost var theirs := Summary(otherBuckets, otherCount, otherSum, otherMin, otherMax);
      samples := samples + other.samples;
      for i := 0 to BUCKETS
        invariant |buckets| == BUCKETS
        invariant forall j :: 0 <= j < i ==> buckets[j] == mine.buckets[j] + otherBuckets[j]
        invariant forall j :: i <= j < BUCKETS ==> buckets[j] == mine.buckets[j]
        invariant Summary(mine.buckets, count, sum, minV, maxV) == mine
        invariant samples == old(samples) + old(other.samples)
      {
        buckets := buckets[i := buckets[i] + otherBuckets[i]];
      }
      assert buckets == Combine(mine, theirs).buckets;
      count := count + otherCount;
      sum := WrapAdd(sum, otherSum);
      if otherMax > maxV {
        maxV := otherMax;
      }
      if minV == 0 || (otherMin != 0 && otherMin < minV) {
        minV := otherMin;
      }
    }

    /** A copy that later writes to this histogram cannot reach. */
    method Snapshot() returns (out: Histogram)
      requires Valid()
      ensures fresh(out) && out.Valid() && out.samples == samples
    {
      out := new Histogram();
      out.Merge(this);
      assert [] + samples == samples;
    }
  }

  /** The counter for a value, with the two clamps that never act. */
  function BucketIndex(v: Sample): (b: nat)
    ensures b < BUCKETS && Pow2(b) <= v < Pow2(b + 1)
  {
    var bucket: int := Len64(v) - 1;
    var clamped: int := if bucket < 0 then 0 else if bucket >= BUCKETS then BUCKETS - 1 else bucket;
    BucketBounds(v);
    BucketOfValue(v, Len64(v) - 1);
    clamped
  }

  /** Recording one value moves one counter. */
  lemma {:induction false} RecordedCount(s: seq<Sample>, v: Sample)
    ensures var b := BucketIndex(v);
            BucketCounts(s + [v]) == BucketCounts(s)[b := BucketCounts(s)[b] + 1]
  {
    forall i | 0 <= i < BUCKETS
      ensures BucketCounts(s + [v])[i] == BucketCounts(s)[i] + if i == BucketIndex(v) then 1 else 0
    {
      CountOneMore(s, v, i);
    }
  }

  lemma {:induction false} CountOneMore(s: seq<Sample>, v: Sample, i: nat)
    ensures InBucket(s + [v], i) == InBucket(s, i) + if i == BucketIndex(v) then 1 else 0
  {
    BucketOfValue(v, i);
    BucketOfValue(v, BucketIndex(v));
    assert (s + [v])[..|s|] == s;
  }

  /** What the summary becomes when one sample is recorded. */
  lemma {:induction false} RecordedSummary(h: Summary, s: seq<Sample>, v: Sample)
    requires h == Summarize(s)
    ensures var b := BucketIndex(v);
            Summarize(s + [v]) == Summary(h.buckets[b := h.buckets[b] + 1], h.count + 1, WrapAdd(h.sum, v),
                                          if h.minV == 0 || v < h.minV then v else h.minV,
                                          if v > h.maxV then v else h.maxV)
  {
    RecordedCount(s, v);
    ExtremesCombine(s, [v]);
    assert (s + [v])[..|s|] == s;
  }
}
