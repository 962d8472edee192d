/** What a histogram knows of the samples it has seen, and how well its percentile
    estimate approximates the exact sample of that rank. */
module HistogramModel {

  const BUCKETS: nat := 64
  const TWO64: nat := 0x1_0000_0000_0000_0000

  function Pow2(n: nat): (r: nat)
    ensures r > 0
  {
    if n == 0 then 1 else 2 * Pow2(n - 1)
  }

  /** bits.Len64: the number of bits needed for v. */
  function Len64(v: nat): nat {
    if v == 0 then 0 else 1 + Len64(v / 2)
  }

  type Word = v: nat | v < TWO64

  type Sample = v: nat | 1 <= v < TWO64 witness 1

  /** Values as the histogram counts them: zero has become one. */
  function Counted(v: Word): Sample {
    if v == 0 then 1 else v
  }

  // ---- Facts about a list of samples ----

  /** How many samples lie in [lo, hi). */
  function InRange(s: seq<Sample>, lo: nat, hi: nat): (n: nat)
    ensures n <= |s|
  {
    if s == [] then 0
    else InRange(s[..|s| - 1], lo, hi) + if lo <= s[|s| - 1] < hi then 1 else 0
  }

  /** Addition on uint64. */
  function WrapAdd(a: Word, b: Word): Word {
    if a + b >= TWO64 then a + b - TWO64 else a + b
  }

  function Total(s: seq<Sample>): nat {
    if s == [] then 0 else Total(s[..|s| - 1]) + s[|s| - 1]
  }

  /** The sum as uint64 arithmetic leaves it. */
  function WrappedTotal(s: seq<Sample>): Word {
    if s == [] then 0 else WrapAdd(WrappedTotal(s[..|s| - 1]), s[|s| - 1])
  }

  lemma {:induction false} WrappedTotalIsModular(s: seq<Sample>)
    ensures WrappedTotal(s) == Total(s) % TWO64
  {
    if s != [] {
      WrappedTotalIsModular(s[..|s| - 1]);
      var t, v := Total(s[..|s| - 1]), s[|s| - 1];
      assert (t % TWO64 + v) % TWO64 == (t + v) % TWO64;
    }
  }

  function MinOf(s: seq<Sample>): nat {
    if s == [] then 0
    else if |s| == 1 || s[|s| - 1] < MinOf(s[..|s| - 1]) then s[|s| - 1]
    else MinOf(s[..|s| - 1])
  }

  function MaxOf(s: seq<Sample>): nat {
    if s == [] then 0
    else if |s| == 1 || s[|s| - 1] > MaxOf(s[..|s| - 1]) then s[|s| - 1]
    else MaxOf(s[..|s| - 1])
  }

  lemma {:induction false} Extremes(s: seq<Sample>)
    requires s != []
    ensures MinOf(s) in s && MaxOf(s) in s
    ensures forall x :: x in s ==> MinOf(s) <= x <= MaxOf(s)
  {
    if |s| > 1 {
      Extremes(s[..|s| - 1]);
      assert s == s[..|s| - 1] + [s[|s| - 1]];
    }
  }

  // ---- The summary a histogram keeps ----

  datatype Summary = Summary(buckets: seq<nat>, count: nat, sum: Word, minV: nat, maxV: nat)

  function InBucket(s: seq<Sample>, i: nat): nat {
    InRange(s, Pow2(i), Pow2(i + 1))
  }

  function BucketCounts(s: seq<Sample>): (r: seq<nat>)
    ensures |r| == BUCKETS
    ensures forall i {:trigger InBucket(s, i)} :: 0 <= i < BUCKETS ==> r[i] == InBucket(s, i)
  {
    seq(BUCKETS, i requires 0 <= i => InBucket(s, i))
  }

  lemma {:induction false} NoSamples()
    ensures BucketCounts([]) == seq(BUCKETS, i => 0)
  {
    forall i | 0 <= i < BUCKETS
      ensures BucketCounts([])[i] == 0
    {
      assert InBucket([], i) == 0;
    }
  }

  function Summarize(s: seq<Sample>): Summary {
    Summary(BucketCounts(s), |s|, WrappedTotal(s), MinOf(s), MaxOf(s))
  }

  /** Merge on summaries. */
  function Combine(a: Summary, b: Summary): Summary
    requires |a.buckets| == |b.buckets| == BUCKETS
  {
    Summary(seq(BUCKETS, i requires 0 <= i < BUCKETS => a.buckets[i] + b.buckets[i]),
            a.count + b.count,
            WrapAdd(a.sum, b.sum),
            if a.minV == 0 || (b.minV != 0 && b.minV < a.minV) then b.minV else a.minV,
            if b.maxV > a.maxV then b.maxV else a.maxV)
  }

  lemma {:induction false} BucketBounds(v: nat)
    requires v > 0
    ensures Len64(v) > 0 && Pow2(Len64(v) - 1) <= v < Pow2(Len64(v))
  {
    if v > 1 {
      BucketBounds(v / 2);
    }
  }

  lemma {:induction false} Pow2Monotone(a: nat, b: nat)
    requires a <= b
    ensures Pow2(a) <= Pow2(b)
    ensures a < b ==> 2 * Pow2(a) <= Pow2(b)
    decreases b
  {
    if a < b {
      Pow2Monotone(a, b - 1);
    }
  }

  lemma {:induction false} Pow2At63()
    ensures Pow2(63) == TWO64 / 2
    ensures Pow2(64) == TWO64
  {
    assert Pow2(8) == 256;
    assert Pow2(16) == 65536;
    assert Pow2(24) == 0x100_0000;
    assert Pow2(32) == 0x1_0000_0000;
    assert Pow2(40) == 0x100_0000_0000;
    assert Pow2(48) == 0x1_0000_0000_0000;
    assert Pow2(56) == 0x100_0000_0000_0000;
    assert Pow2(63) == 0x8000_0000_0000_0000;
  }

  /** The bucket Record computes is the power-of-two range the value lies in, and
      its two clamps never act. */
  lemma {:induction false} BucketOfValue(v: nat, i: nat)
    requires 1 <= v < TWO64
    ensures 1 <= Len64(v) <= BUCKETS
    ensures Pow2(i) <= v < Pow2(i + 1) <==> i == Len64(v) - 1
  {
    BucketBounds(v);
    Pow2At63();
    if Len64(v) > BUCKETS {
      Pow2Monotone(64, Len64(v) - 1);
    }
    if i < Len64(v) - 1 {
      Pow2Monotone(i + 1, Len64(v) - 1);
    } else if i > Len64(v) - 1 {
      Pow2Monotone(Len64(v), i);
    }
  }

  // ---- Merging is concatenating ----

  lemma {:induction false} RangeConcat(a: seq<Sample>, b: seq<Sample>, lo: nat, hi: nat)
    ensures InRange(a + b, lo, hi) == InRange(a, lo, hi) + InRange(b, lo, hi)
  {
    if b == [] {
      assert a + b == a;
    } else {
      assert (a + b)[..|a + b| - 1] == a + b[..|b| - 1];
      RangeConcat(a, b[..|b| - 1], lo, hi);
    }
  }

  lemma {:induction false} TotalConcat(a: seq<Sample>, b: seq<Sample>)
    ensures WrappedTotal(a + b) == WrapAdd(WrappedTotal(a), WrappedTotal(b))
  {
    if b == [] {
      assert a + b == a;
    } else {
      assert (a + b)[..|a + b| - 1] == a + b[..|b| - 1];
      TotalConcat(a, b[..|b| - 1]);
    }
  }

  lemma {:induction false} ExtremesConcat(a: seq<Sample>, b: seq<Sample>)
    requires a != [] && b != []
    ensures MinOf(a + b) == if MinOf(b) < MinOf(a) then MinOf(b) else MinOf(a)
    ensures MaxOf(a + b) == if MaxOf(b) > MaxOf(a) then MaxOf(b) else MaxOf(a)
  {
    Extremes(a);
    Extremes(b);
    Extremes(a + b);
    assert MinOf(a + b) in a || MinOf(a + b) in b;
    assert MaxOf(a + b) in a || MaxOf(a + b) in b;
    assert MinOf(a) in a + b && MinOf(b) in a + b && MaxOf(a) in a + b && MaxOf(b) in a + b;
  }

  lemma {:induction false} ExtremesCombine(a: seq<Sample>, b: seq<Sample>)
    ensures MinOf(a + b)
         == if MinOf(a) == 0 || (MinOf(b) != 0 && MinOf(b) < MinOf(a)) then MinOf(b) else MinOf(a)
    ensures MaxOf(a + b) == if MaxOf(b) > MaxOf(a) then MaxOf(b) else MaxOf(a)
  {
    if a == [] {
      assert a + b == b;
    } else if b == [] {
      assert a + b == a;
      Extremes(a);
    } else {
      Extremes(a);
      Extremes(b);
      ExtremesConcat(a, b);
    }
  }

  /** Merging two histograms gives the histogram of all their samples. */
  lemma {:induction false} MergeIsUnion(a: seq<Sample>, b: seq<Sample>)
    ensures Combine(Summarize(a), Summarize(b)) == Summarize(a + b)
  {
    BucketsAdd(a, b);
    TotalConcat(a, b);
    ExtremesCombine(a, b);
  }

  lemma {:induction false} BucketsAdd(a: seq<Sample>, b: seq<Sample>)
    ensures forall i :: 0 <= i < BUCKETS
              ==> BucketCounts(a + b)[i] == BucketCounts(a)[i] + BucketCounts(b)[i]
  {
    forall i | 0 <= i < BUCKETS
      ensures BucketCounts(a + b)[i] == BucketCounts(a)[i] + BucketCounts(b)[i]
    {
      RangeConcat(a, b, Pow2(i), Pow2(i + 1));
      assert InBucket(a + b, i) == InBucket(a, i) + InBucket(b, i);
    }
  }

  lemma {:induction false} UnionCommutes(a: seq<Sample>, b: seq<Sample>)
    ensures Summarize(a + b) == Summarize(b + a)
  {
    MergeIsUnion(a, b);
    MergeIsUnion(b, a);
    assert Combine(Summarize(a), Summarize(b)).buckets == Combine(Summarize(b), Summarize(a)).buckets;
  }

  lemma {:induction false} UnionSame(a: seq<Sample>, b: seq<Sample>, c: seq<Sample>)
    requires Summarize(b) == Summarize(c)
    ensures Summarize(a + b) == Summarize(a + c)
    ensures Summarize(b + a) == Summarize(c + a)
  {
    MergeIsUnion(a, b);
    MergeIsUnion(a, c);
    MergeIsUnion(b, a);
    MergeIsUnion(c, a);
  }

  lemma {:induction false} MoveToEnd(l: seq<Sample>, x: Sample, r: seq<Sample>)
    ensures Summarize(l + [x] + r) == Summarize(l + r + [x])
  {
    UnionCommutes([x], r);
    UnionSame(l, [x] + r, r + [x]);
    assert l + [x] + r == l + ([x] + r);
    assert l + r + [x] == l + (r + [x]);
  }

  lemma {:induction false} TakeOut(rest: seq<Sample>, x: Sample, b: seq<Sample>) returns (l: seq<Sample>, r: seq<Sample>)
    requires multiset(rest + [x]) == multiset(b)
    ensures b == l + [x] + r && multiset(l + r) == multiset(rest)
  {
    assert x in multiset(rest + [x]);
    var j :| 0 <= j < |b| && b[j] == x;
    l, r := b[..j], b[j + 1..];
    assert b == l + [x] + r;
    assert multiset(l + r) == multiset(b) - multiset{x};
    assert multiset(rest) == multiset(rest + [x]) - multiset{x};
  }

  /** The order in which samples arrive does not matter. */
  lemma {:induction false} OrderIrrelevant(a: seq<Sample>, b: seq<Sample>)
    requires multiset(a) == multiset(b)
    ensures Summarize(a) == Summarize(b)
    decreases |a|
  {
    if a == [] {
      assert |multiset(b)| == 0;
    } else {
      var x, rest := a[|a| - 1], a[..|a| - 1];
      assert a == rest + [x];
      var l, r := TakeOut(rest, x, b);
      OrderIrrelevant(rest, l + r);
      MoveToEnd(l, x, r);
      UnionSame([x], rest, l + r);
    }
  }

  // ---- Percentiles ----

  function Ceil(x: real): int {
    -((-x).Floor)
  }

  /** The rank Percentile looks for. */
  function Target(count: nat, p: real): nat
    requires 0.0 < p
  {
    var t := Ceil(count as real * p / 100.0);
    if t <= 0 then 1 else t
  }

  function BucketEstimate(minV: nat, maxV: nat, i: nat): nat {
    if i >= BUCKETS - 1 then maxV
    else
      var low := Pow2(i);
      var mid := low + (2 * low - low) / 2;
      if mid < minV then minV
      else if mid > maxV then maxV
      else mid
  }

  /** The bucket at which the accumulating scan reaches the target, or their number
      when it never does. */
  function Scan(buckets: seq<nat>, i: nat, cum: nat, target: nat): nat
    requires i <= |buckets|
    decreases |buckets| - i
  {
    if i == |buckets| then i
    else if cum + buckets[i] >= target then i
    else Scan(buckets, i + 1, cum + buckets[i], target)
  }

  function PercentileOf(h: Summary, p: real): nat
    requires |h.buckets| == BUCKETS
  {
    if h.count == 0 then 0
    else if p <= 0.0 then h.minV
    else if p >= 100.0 then h.maxV
    else
      var b := Scan(h.buckets, 0, 0, Target(h.count, p));
      if b < BUCKETS then BucketEstimate(h.minV, h.maxV, b) else h.maxV
  }

  /** x is a sample of rank r: fewer than r samples are below it, and at least r
      are not above it. */
  ghost predicate HasRank(s: seq<Sample>, r: nat, x: nat) {
    x in s && InRange(s, 0, x) < r <= InRange(s, 0, x + 1)
  }

  lemma {:induction false} RangeSplit(s: seq<Sample>, lo: nat, mid: nat, hi: nat)
    requires lo <= mid <= hi
    ensures InRange(s, lo, hi) == InRange(s, lo, mid) + InRange(s, mid, hi)
  {
    if s != [] {
      RangeSplit(s[..|s| - 1], lo, mid, hi);
    }
  }

  lemma {:induction false} RangeCovers(s: seq<Sample>, lo: nat, hi: nat)
    ensures (forall i :: 0 <= i < |s| ==> lo <= s[i] < hi) ==> InRange(s, lo, hi) == |s|
    ensures (forall i :: 0 <= i < |s| ==> !(lo <= s[i] < hi)) ==> InRange(s, lo, hi) == 0
  {
    if s != [] {
      RangeCovers(s[..|s| - 1], lo, hi);
    }
  }

  lemma {:induction false} RangeHasSample(s: seq<Sample>, lo: nat, hi: nat)
    requires InRange(s, lo, hi) > 0
    ensures exists i :: 0 <= i < |s| && lo <= s[i] < hi
  {
    if !(lo <= s[|s| - 1] < hi) {
      RangeHasSample(s[..|s| - 1], lo, hi);
      var i :| 0 <= i < |s| - 1 && lo <= s[..|s| - 1][i] < hi;
      assert lo <= s[i] < hi;
    }
  }

  lemma {:induction false} TargetBounds(count: nat, p: real)
    requires 0 < count && 0.0 < p < 100.0
    ensures 1 <= Target(count, p) <= count
    ensures Target(count, p) == Ceil(count as real * p / 100.0)
  {
    var x := count as real * p / 100.0;
    assert 0.0 < x < count as real;
  }

  /** The scan stops in the one bucket whose cumulative counts straddle the target. */
  lemma {:induction false} ScanStops(s: seq<Sample>, buckets: seq<nat>, i: nat, b: nat, target: nat)
    requires |buckets| == BUCKETS && i <= b < BUCKETS
    requires forall j :: 0 <= j < BUCKETS ==> buckets[j] == InBucket(s, j)
    requires InRange(s, 0, Pow2(b)) < target <= InRange(s, 0, Pow2(b + 1))
    ensures Scan(buckets, i, InRange(s, 0, Pow2(i)), target) == b
    decreases b - i
  {
    var lo, hi := Pow2(i), Pow2(i + 1);
    Pow2Monotone(i, i + 1);
    RangeSplit(s, 0, lo, hi);
    if i < b {
      Pow2Monotone(i + 1, b);
      RangeSplit(s, 0, hi, Pow2(b));
      ScanStops(s, buckets, i + 1, b, target);
    }
  }

  /** A sample of rank r lies in the bucket where the scan for r stops. */
  lemma {:induction false} RankBucket(s: seq<Sample>, r: nat, x: nat) returns (b: nat)
    requires HasRank(s, r, x)
    ensures b < BUCKETS && Pow2(b) <= x < Pow2(b + 1)
    ensures InRange(s, 0, Pow2(b)) < r <= InRange(s, 0, Pow2(b + 1))
    ensures Scan(BucketCounts(s), 0, 0, r) == b
  {
    b := Len64(x) - 1;
    BucketOfValue(x, b);
    RangeSplit(s, 0, Pow2(b), x);
    RangeSplit(s, 0, x + 1, Pow2(b + 1));
    RangeCovers(s, 0, 1);
    ScanStops(s, BucketCounts(s), 0, b, r);
  }

  function Distance(a: nat, b: nat): nat {
    if a < b then b - a else a - b
  }

  lemma {:induction false} EstimateNearBucketMates(s: seq<Sample>, b: nat, x: nat)
    requires x in s && b < BUCKETS && Pow2(b) <= x < Pow2(b + 1)
    ensures var e := BucketEstimate(MinOf(s), MaxOf(s), b);
            && Pow2(b) <= e < Pow2(b + 1)
            && MinOf(s) <= e <= MaxOf(s)
            && (b < 63 ==> 2 * Distance(e, x) <= Pow2(b))
            && e < 2 * x
  {
    Pow2At63();
    Extremes(s);
    if b > 0 {
      assert Pow2(b) == 2 * Pow2(b - 1);
    }
  }

  /** Main result: strictly between 0 and 100 the estimate shares its power-of-two
      bucket with the exact sample of the sought rank; it is off by at most half the
      width of the bucket, and so by half the exact value, or in the top bucket by less
      than the exact value. */
  lemma {:induction false} PercentileAccuracy(s: seq<Sample>, p: real, exact: nat)
    requires 0.0 < p < 100.0
    requires HasRank(s, Ceil(|s| as real * p / 100.0), exact)
    ensures var e := PercentileOf(Summarize(s), p);
            exists b :: && 0 <= b < BUCKETS
              && Pow2(b) <= exact < Pow2(b + 1)
              && Pow2(b) <= e < Pow2(b + 1)
              && (b < 63 ==> 2 * Distance(e, exact) <= Pow2(b))
              && e < 2 * exact
  {
    TargetBounds(|s|, p);
    var b := RankBucket(s, Target(|s|, p), exact);
    EstimateNearBucketMates(s, b, exact);
  }

  /** The claim of at most half the exact value as error holds exactly when the exact
      sample lies below the top bucket, or the maximum, which the top bucket reports,
      is at most one and a half times the exact sample. */
  lemma {:induction false} HalfErrorIff(s: seq<Sample>, p: real, exact: nat)
    requires 0.0 < p < 100.0
    requires HasRank(s, Ceil(|s| as real * p / 100.0), exact)
    ensures 2 * Distance(PercentileOf(Summarize(s), p), exact) <= exact
       <==> exact < TWO64 / 2 || 2 * MaxOf(s) <= 3 * exact
  {
    TargetBounds(|s|, p);
    var b := RankBucket(s, Target(|s|, p), exact);
    EstimateNearBucketMates(s, b, exact);
    Extremes(s);
    Pow2At63();
    if b < 63 {
      Pow2Monotone(b + 1, 63);
    }
  }

  /** It fails: of the samples 2^63 and 2^64 - 1 the median is the first, and the
      estimate is the second, off by all but one of the exact value. */
  lemma {:induction false} HalfErrorFails()
    ensures var s: seq<Sample> := [TWO64 / 2, TWO64 - 1];
            && HasRank(s, Ceil(|s| as real * 50.0 / 100.0), TWO64 / 2)
            && PercentileOf(Summarize(s), 50.0) == TWO64 - 1
            && Distance(PercentileOf(Summarize(s), 50.0), TWO64 / 2) == TWO64 / 2 - 1
  {
    var low: Sample, high: Sample := TWO64 / 2, TWO64 - 1;
    var s: seq<Sample> := [low, high];
    TwoSamples(low, high);
    assert Ceil(|s| as real * 50.0 / 100.0) == 1;
    TargetBounds(|s|, 50.0);
    var b := RankBucket(s, 1, low);
    Pow2At63();
    if b < 63 {
      Pow2Monotone(b + 1, 63);
    }
    assert PercentileOf(Summarize(s), 50.0) == MaxOf(s);
  }

  lemma {:induction false} TwoSamples(low: Sample, high: Sample)
    requires low < high
    ensures HasRank([low, high], 1, low) && MaxOf([low, high]) == high
  {
    var s := [low, high];
    assert s[..1] == [low] && s[..1][..0] == [];
    assert InRange([low], 0, low) == 0 && InRange([low], 0, low + 1) == 1;
    assert InRange(s, 0, low) == 0 && InRange(s, 0, low + 1) == 1;
    Extremes(s);
    Extremes([low]);
    assert s[1] == high && s[0] == low;
  }

  /** Every rank has its sample, and only one. */
  lemma {:induction false} RankExists(s: seq<Sample>, r: nat) returns (x: nat)
    requires 1 <= r <= |s|
    ensures HasRank(s, r, x)
    ensures forall y: nat :: HasRank(s, r, y) ==> y == x
  {
    x := 0;
    RangeCovers(s, 0, 0);
    while InRange(s, 0, x + 1) < r
      invariant InRange(s, 0, x) < r
      invariant x < TWO64
      decreases TWO64 - x
    {
      RangeCovers(s, 0, x + 2);
      x := x + 1;
      if x == TWO64 {
        RangeCovers(s, 0, x);
      }
    }
    RangeSplit(s, 0, x, x + 1);
    RangeHasSample(s, x, x + 1);
    forall y: nat | HasRank(s, r, y)
      ensures y == x
    {
      if y < x {
        RangeSplit(s, 0, y + 1, x);
      } else if x < y {
        RangeSplit(s, 0, x + 1, y);
      }
    }
  }

  /** A percentile never leaves the observed range, whatever p is. */
  lemma {:induction false} PercentileInRange(s: seq<Sample>, p: real)
    requires s != []
    ensures MinOf(s) <= PercentileOf(Summarize(s), p) <= MaxOf(s)
  {
    if 0.0 < p < 100.0 {
      TargetBounds(|s|, p);
      var x := RankExists(s, Target(|s|, p));
      var b := RankBucket(s, Target(|s|, p), x);
      EstimateNearBucketMates(s, b, x);
    }
  }

  /** The estimates follow the order of the buckets. */
  lemma {:induction false} EstimateMonotone(s: seq<Sample>, x: nat, b: nat, y: nat, c: nat)
    requires x in s && y in s && b <= c < BUCKETS
    requires Pow2(b) <= x < Pow2(b + 1) && Pow2(c) <= y < Pow2(c + 1)
    ensures BucketEstimate(MinOf(s), MaxOf(s), b) <= BucketEstimate(MinOf(s), MaxOf(s), c)
  {
    if b < c {
      EstimateNearBucketMates(s, b, x);
      EstimateNearBucketMates(s, c, y);
      Pow2Monotone(b + 1, c);
    }
  }

  lemma {:induction false} TargetMonotone(count: nat, p: real, q: real)
    requires 0.0 < p <= q
    ensures Target(count, p) <= Target(count, q)
  {
    assert count as real * p <= count as real * q;
    assert count as real * p / 100.0 <= count as real * q / 100.0;
  }

  /** Where the scans for two ranks stop, in order. */
  lemma {:induction false} RanksMonotone(s: seq<Sample>, r: nat, t: nat)
    requires 1 <= r <= t <= |s|
    ensures Scan(BucketCounts(s), 0, 0, r) < BUCKETS && Scan(BucketCounts(s), 0, 0, t) < BUCKETS
    ensures BucketEstimate(MinOf(s), MaxOf(s), Scan(BucketCounts(s), 0, 0, r))
         <= BucketEstimate(MinOf(s), MaxOf(s), Scan(BucketCounts(s), 0, 0, t))
  {
    var x := RankExists(s, r);
    var y := RankExists(s, t);
    var b := RankBucket(s, r, x);
    var c := RankBucket(s, t, y);
    if c < b {
      Pow2Monotone(c + 1, b);
      RangeSplit(s, 0, Pow2(c + 1), Pow2(b));
    }
    EstimateMonotone(s, x, b, y, c);
  }

  /** A higher percentile is never estimated lower. */
  lemma {:induction false} PercentileMonotone(s: seq<Sample>, p: real, q: real)
    requires p <= q
    ensures PercentileOf(Summarize(s), p) <= PercentileOf(Summarize(s), q)
  {
    if s == [] {
    } else if 0.0 < p && q < 100.0 {
      TargetBounds(|s|, p);
      TargetBounds(|s|, q);
      TargetMonotone(|s|, p, q);
      RanksMonotone(s, Target(|s|, p), Target(|s|, q));
    } else {
      PercentileInRange(s, p);
      PercentileInRange(s, q);
    }
  }

  /** The return after the loop is dead: some bucket always reaches the target. */
  lemma {:induction false} ScanNeverFallsThrough(s: seq<Sample>, p: real) returns (b: nat)
    requires s != [] && 0.0 < p < 100.0
    ensures b < BUCKETS
    ensures InRange(s, 0, Pow2(b)) < Target(|s|, p) <= InRange(s, 0, Pow2(b + 1))
    ensures PercentileOf(Summarize(s), p) == BucketEstimate(MinOf(s), MaxOf(s), b)
  {
    TargetBounds(|s|, p);
    var x := RankExists(s, Target(|s|, p));
    b := RankBucket(s, Target(|s|, p), x);
  }
}
