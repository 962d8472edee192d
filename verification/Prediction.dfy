/** Extrapolating trends of past snapshots to the time when a limit is reached. */
module Prediction {
  import opened Options
  import opened Regression
  import opened Sorting
  import opened Eta
  import opened Signals

  datatype Source = FD | DiskIO | Sched | TCP

  datatype Prediction = Prediction(signal: Source, timeToImpact: int)

  const FD_LIMIT := 65536.0

  /** The value at which a trend becomes critical. */
  function Critical(signal: Source): real {
    match signal
    case FD => FD_LIMIT
    case DiskIO => 200_000_000.0
    case Sched => 20_000_000.0
    case TCP => 2.0
  }

  /** What a snapshot says about a signal, if it counts for the trend. */
  function Observed(s: Signals, signal: Source): Option<real> {
    match signal
    case FD => if s.fd.Some? && s.fd.value.growthRate > 0.0 then Some(s.fd.value.growthRate) else None
    case DiskIO => if s.disk.Some? && s.disk.value.syncP99 > 0 then Some(s.disk.value.syncP99 as real) else None
    case Sched => if s.sched.Some? && s.sched.value.runqP99 > 0 then Some(s.sched.value.runqP99 as real) else None
    case TCP => if s.tcp.Some? then Some(s.tcp.value.retransmitRate) else None
  }

  /** The observations of all snapshots that have one, oldest first. */
  function Series(snapshots: seq<Signals>, signal: Source): seq<real> {
    if snapshots == [] then []
    else
      var front := Series(snapshots[..|snapshots| - 1], signal);
      match Observed(snapshots[|snapshots| - 1], signal)
      case Some(v) => front + [v]
      case None => front
  }

  method Gather(snapshots: seq<Signals>, signal: Source) returns (values: seq<real>)
    ensures values == Series(snapshots, signal)
  {
    values := [];
    for i := 0 to |snapshots|
      invariant values == Series(snapshots[..i], signal)
    {
      var observed := Observed(snapshots[i], signal);
      if observed.Some? {
        values := values + [observed.value];
      }
      assert snapshots[..i + 1][..i] == snapshots[..i];
    }
    assert snapshots[..|snapshots|] == snapshots;
  }

  /** The time covered by the snapshots, in seconds. */
  function Span(snapshots: seq<Signals>): real
    requires snapshots != []
  {
    (snapshots[|snapshots| - 1].timestamp - snapshots[0].timestamp) as real / SECOND as real
  }

  /** Change per second: the slope is per observation, and the source spreads the
      observations evenly over the span. */
  function PerSecond(values: seq<real>, span: real): real
    requires span != 0.0
  {
    Slope(values) / span * (|values| - 1) as real
  }

  /** Time until a rising series reaches its critical value. */
  function Impact(values: seq<real>, span: real, critical: real): Option<int> {
    if |values| < 2 || Slope(values) <= 0.0 then None
    else
      var current := values[|values| - 1];
      if current >= critical || span == 0.0 then None
      else
        var rate := PerSecond(values, span);
        if rate <= 0.0 then None else EtaDuration((critical - current) / rate)
  }

  function TrendPrediction(snapshots: seq<Signals>, signal: Source): seq<Prediction>
    requires snapshots != []
  {
    match Impact(Series(snapshots, signal), Span(snapshots), Critical(signal))
    case Some(eta) => [Prediction(signal, eta)]
    case None => []
  }

  /** Descriptor growth is already a rate: it is averaged, not fitted. */
  function FdPrediction(snapshots: seq<Signals>): seq<Prediction>
    requires snapshots != []
  {
    var rates := Series(snapshots, FD);
    var latest := snapshots[|snapshots| - 1];
    if |rates| < 2 || latest.fd.None? then []
    else
      var left := FD_LIMIT - latest.fd.value.netDelta as real;
      RatesPositive(snapshots);
      match EtaDuration((if left <= 0.0 then 1.0 else left) / Mean(rates))
      case Some(eta) => [Prediction(FD, eta)]
      case None => []
  }

  lemma {:induction false} RatesPositive(snapshots: seq<Signals>)
    ensures forall r :: r in Series(snapshots, FD) ==> r > 0.0
    ensures Series(snapshots, FD) != [] ==> Mean(Series(snapshots, FD)) > 0.0
  {
    if snapshots != [] {
      RatesPositive(snapshots[..|snapshots| - 1]);
    }
    SumPositive(Series(snapshots, FD));
  }

  lemma {:induction false} SumPositive(ys: seq<real>)
    requires forall y :: y in ys ==> y > 0.0
    ensures Sum(ys) >= 0.0 && (ys != [] ==> Sum(ys) > 0.0 && Mean(ys) > 0.0)
  {
    SumAtLeast(ys, 0.0);
    if ys != [] {
      var front := ys[..|ys| - 1];
      assert forall y :: y in front ==> y in ys;
      SumAtLeast(front, 0.0);
      assert ys[|ys| - 1] in ys;
    }
  }

  method PredictFDExhaustion(snapshots: seq<Signals>) returns (found: seq<Prediction>)
    requires snapshots != []
    ensures found == FdPrediction(snapshots)
  {
    hide Mean;
    var rates := Gather(snapshots, FD);
    if |rates| < 2 {
      return [];
    }
    var avgRate := Average(rates);
    RatesPositive(snapshots);
    if avgRate <= 0.0 {
      assert false;
    }
    var latest := snapshots[|snapshots| - 1];
    if latest.fd.None? {
      return [];
    }
    var remaining := 65536.0 - latest.fd.value.netDelta as real;
    if remaining <= 0.0 {
      remaining := 1.0;
    }
    var eta := EtaDuration(remaining / avgRate);
    found := if eta.Some? then [Prediction(FD, eta.value)] else [];
  }

  /** The common body of the three predictors that fit a line. An empty span makes
      the source divide by zero: the rate is infinite, the time zero, and zero is
      rejected. */
  method PredictTrend(snapshots: seq<Signals>, signal: Source) returns (found: seq<Prediction>)
    requires snapshots != []
    ensures found == TrendPrediction(snapshots, signal)
  {
    hide Slope, Series, Span, EtaDuration;
    var values := Gather(snapshots, signal);
    if |values| < 2 {
      return [];
    }
    var slope := LinearSlope(values);
    if slope <= 0.0 {
      return [];
    }
    var current := values[|values| - 1];
    if current >= Critical(signal) {
      return [];
    }
    var remaining := Critical(signal) - current;
    var interval := Span(snapshots);
    if interval == 0.0 {
      return [];
    }
    var slopePerSec := slope / interval * (|values| - 1) as real;
    assert slopePerSec == PerSecond(values, interval);
    hide PerSecond;
    if slopePerSec <= 0.0 {
      return [];
    }
    var eta := EtaDuration(remaining / slopePerSec);
    found := if eta.Some? then [Prediction(signal, eta.value)] else [];
  }

  predicate MoreUrgent(a: Prediction, b: Prediction) {
    a.timeToImpact < b.timeToImpact
  }

  /** Where x settles is the one place with nothing greater before it and only
      greater ones behind. */
  lemma {:induction false} SlotUnique(s: seq<Prediction>, x: Prediction, j: nat)
    requires j <= |s|
    requires j > 0 ==> !MoreUrgent(x, s[j - 1])
    requires forall k :: j <= k < |s| ==> MoreUrgent(x, s[k])
    ensures Slot(s, x, MoreUrgent) == j
  {
    if j < |s| {
      assert MoreUrgent(x, s[|s| - 1]);
      SlotUnique(s[..|s| - 1], x, j);
    }
  }

  /** Insertion sort by neighbour swaps, in place. */
  method SortPredictions(predictions: array<Prediction>)
    modifies predictions
    ensures predictions[..] == StableSort(old(predictions[..]), MoreUrgent)
  {
    ghost var was := predictions[..];
    var i := 0;
    while i < predictions.Length
      invariant 0 <= i <= predictions.Length
      invariant predictions[..i] == StableSort(was[..i], MoreUrgent)
      invariant predictions[i..] == was[i..]
    {
      SinkInto(predictions, i);
      assert was[..i + 1][..i] == was[..i];
      assert predictions[i + 1..] == was[i..][1..];
      i := i + 1;
    }
    assert was[..|was|] == was;
  }

  /** The inner loop: element i sinks to its place among the i sorted ones before it. */
  method SinkInto(predictions: array<Prediction>, i: nat)
    requires i < predictions.Length
    modifies predictions
    ensures predictions[..i + 1] == Insert(old(predictions[..i]), old(predictions[i]), MoreUrgent)
    ensures predictions[i + 1..] == old(predictions[i + 1..])
  {
    ghost var t, x := predictions[..i], predictions[i];
    var j := i;
    while j > 0 && MoreUrgent(predictions[j], predictions[j - 1])
      invariant 0 <= j <= i
      invariant predictions[..j] == t[..j] && predictions[j] == x
      invariant predictions[j + 1..i + 1] == t[j..]
      invariant predictions[i + 1..] == old(predictions[i + 1..])
      invariant forall k :: j <= k < i ==> MoreUrgent(x, t[k])
    {
      assert predictions[j - 1] == t[j - 1];
      predictions[j], predictions[j - 1] := predictions[j - 1], predictions[j];
      assert predictions[j..i + 1] == [t[j - 1]] + t[j..];
      j := j - 1;
    }
    assert j > 0 ==> predictions[..j][j - 1] == t[j - 1];
    SlotUnique(t, x, j);
    assert predictions[..i + 1] == predictions[..j] + [predictions[j]] + predictions[j + 1..i + 1];
  }

  function Unsorted(snapshots: seq<Signals>): seq<Prediction>
    requires snapshots != []
  {
    FdPrediction(snapshots) + TrendPrediction(snapshots, DiskIO)
      + TrendPrediction(snapshots, Sched) + TrendPrediction(snapshots, TCP)
  }

  function Report(snapshots: seq<Signals>): seq<Prediction> {
    if |snapshots| < 2 then [] else StableSort(Unsorted(snapshots), MoreUrgent)
  }

  method Predict(snapshots: seq<Signals>) returns (report: seq<Prediction>)
    ensures report == Report(snapshots)
  {
    if |snapshots| < 2 {
      return [];
    }
    var fd := PredictFDExhaustion(snapshots);
    var disk := PredictTrend(snapshots, DiskIO);
    var sched := PredictTrend(snapshots, Sched);
    var tcp := PredictTrend(snapshots, TCP);
    var all := fd + disk + sched + tcp;
    var predictions := new Prediction[|all|](k requires 0 <= k < |all| => all[k]);
    assert predictions[..] == all;
    SortPredictions(predictions);
    report := predictions[..];
  }

  /** What the predictor of one signal found. */
  function Found(snapshots: seq<Signals>, signal: Source): seq<Prediction>
    requires snapshots != []
  {
    if signal == FD then FdPrediction(snapshots) else TrendPrediction(snapshots, signal)
  }

  lemma {:induction false} FoundShape(snapshots: seq<Signals>, signal: Source)
    requires snapshots != []
    ensures |Found(snapshots, signal)| <= 1
    ensures forall p :: p in Found(snapshots, signal) ==> p.signal == signal && 0 < p.timeToImpact <= MAX_MEANINGFUL_ETA
  {
    hide Slope, Mean, Series, Span, PerSecond;
  }

  lemma {:induction false} InUnsorted(snapshots: seq<Signals>, p: Prediction)
    requires snapshots != []
    ensures p in Unsorted(snapshots) <==> p in Found(snapshots, p.signal)
    ensures p in Unsorted(snapshots) ==> 0 < p.timeToImpact <= MAX_MEANINGFUL_ETA
  {
    FoundShape(snapshots, FD);
    FoundShape(snapshots, DiskIO);
    FoundShape(snapshots, Sched);
    FoundShape(snapshots, TCP);
    hide FdPrediction, TrendPrediction;
  }

  lemma {:induction false} UnsortedLength(snapshots: seq<Signals>)
    requires snapshots != []
    ensures |Unsorted(snapshots)| <= 4
  {
    FoundShape(snapshots, FD);
    FoundShape(snapshots, DiskIO);
    FoundShape(snapshots, Sched);
    FoundShape(snapshots, TCP);
    hide FdPrediction, TrendPrediction;
  }

  /** Predictions come most urgent first and otherwise in the order of the predictors;
      each lies within the coming seven days; there is at most one per signal, and it
      is what that signal's predictor found. */
  lemma {:induction false} ReportOrdered(snapshots: seq<Signals>)
    requires |snapshots| >= 2
    ensures StablySorts(Report(snapshots), Unsorted(snapshots), MoreUrgent)
    ensures forall i, j :: 0 <= i < j < |Report(snapshots)| ==> Report(snapshots)[i].timeToImpact <= Report(snapshots)[j].timeToImpact
    ensures forall p :: p in Report(snapshots) ==> 0 < p.timeToImpact <= MAX_MEANINGFUL_ETA
    ensures forall p :: p in Report(snapshots) <==> p in Found(snapshots, p.signal)
    ensures |Report(snapshots)| <= 4
  {
    hide Unsorted, Found;
    StableSortCorrect(Unsorted(snapshots), MoreUrgent);
    UnsortedLength(snapshots);
    forall p
      ensures p in Report(snapshots) <==> p in Found(snapshots, p.signal)
      ensures p in Report(snapshots) ==> 0 < p.timeToImpact <= MAX_MEANINGFUL_ETA
    {
      InUnsorted(snapshots, p);
      assert p in multiset(Report(snapshots)) <==> p in multiset(Unsorted(snapshots));
    }
  }

  // ---- Exact lines ----

  /** Snapshots dt apart, those that carry the signal on the line a + b·i. */
  ghost predicate Regular(snapshots: seq<Signals>, signal: Source, dt: int, a: real, b: real) {
    && (forall i :: 0 <= i < |snapshots| ==> snapshots[i].timestamp == snapshots[0].timestamp + i * dt)
    && (forall i :: 0 <= i < |snapshots| ==> Observed(snapshots[i], signal) in {None, Some(Height(a, b, i as real))})
  }

  /** The first `late` snapshots lack the signal, all others carry it. */
  ghost predicate PresentFrom(snapshots: seq<Signals>, signal: Source, late: nat) {
    forall i :: 0 <= i < |snapshots| ==> (Observed(snapshots[i], signal).Some? <==> late <= i)
  }

  /** Which snapshots carry the signal. */
  function Positions(snapshots: seq<Signals>, signal: Source): (r: seq<real>)
    ensures |r| == |Series(snapshots, signal)|
  {
    if snapshots == [] then []
    else
      var front := Positions(snapshots[..|snapshots| - 1], signal);
      if Observed(snapshots[|snapshots| - 1], signal).Some? then front + [(|snapshots| - 1) as real] else front
  }

  lemma {:induction false} AffineOfNone(a: real, b: real)
    ensures Affine([], a, b) == []
  {
  }

  lemma {:induction false} SeriesOfRegular(snapshots: seq<Signals>, signal: Source, dt: int, a: real, b: real, k: nat)
    requires Regular(snapshots, signal, dt, a, b) && k <= |snapshots|
    ensures Series(snapshots[..k], signal) == Affine(Positions(snapshots[..k], signal), a, b)
  {
    hide Observed, Affine, Height;
    if k == 0 {
      AffineOfNone(a, b);
    } else {
      SeriesOfRegular(snapshots, signal, dt, a, b, k - 1);
      assert snapshots[..k][..k - 1] == snapshots[..k - 1];
      assert Observed(snapshots[k - 1], signal) in {None, Some(Height(a, b, (k - 1) as real))};
      AffineSnoc(Positions(snapshots[..k - 1], signal), (k - 1) as real, a, b);
    }
  }

  lemma {:induction false} PositionsFrom(snapshots: seq<Signals>, signal: Source, late: nat, k: nat)
    requires PresentFrom(snapshots, signal, late) && k <= |snapshots|
    ensures |Positions(snapshots[..k], signal)| == if k <= late then 0 else k - late
    ensures forall i :: 0 <= i < |Positions(snapshots[..k], signal)|
              ==> Positions(snapshots[..k], signal)[i] == (late + i) as real
  {
    if k > 0 {
      hide Observed;
      PositionsFrom(snapshots, signal, late, k - 1);
      assert snapshots[..k][..k - 1] == snapshots[..k - 1];
    }
  }

  /** Change per second of a line that changes by b in dt nanoseconds. */
  function TrueRate(b: real, dt: int): real
    requires dt != 0
  {
    b * SECOND as real / dt as real
  }

  /** How much of the span the observations appear to cover, compared with what they
      do cover. */
  function Stretch(snapshots: seq<Signals>, signal: Source): real
    requires |snapshots| >= 2
  {
    Portion(Slope(Positions(snapshots, signal)), (|Positions(snapshots, signal)| - 1) as real,
            (|snapshots| - 1) as real)
  }

  function Portion(x: real, m: real, n: real): real
    requires n != 0.0
  {
    x * m / n
  }

  lemma {:induction false} SpanOfRegular(snapshots: seq<Signals>, signal: Source, dt: int, a: real, b: real)
    requires |snapshots| >= 2 && Regular(snapshots, signal, dt, a, b)
    ensures Span(snapshots) == (|snapshots| - 1) as real * dt as real / SECOND as real
  {
    hide Observed;
    var n := |snapshots|;
    assert snapshots[n - 1].timestamp == snapshots[0].timestamp + (n - 1) * dt;
    hide *;
    AsReal(n - 1, dt);
  }

  lemma {:induction false} AsReal(m: int, dt: int)
    ensures (m * dt) as real == m as real * dt as real
  {
  }

  /** The rate the source computes is the line's own rate, stretched. */
  lemma {:induction false} RateOfRegular(snapshots: seq<Signals>, signal: Source, dt: int, a: real, b: real)
    requires |snapshots| >= 2 && dt > 0
    requires Regular(snapshots, signal, dt, a, b)
    ensures Series(snapshots, signal) == Affine(Positions(snapshots, signal), a, b)
    ensures Span(snapshots) > 0.0
    ensures PerSecond(Series(snapshots, signal), Span(snapshots))
         == TrueRate(b, dt) * Stretch(snapshots, signal)
  {
    hide Slope, Series, Positions, Regular, Span, Affine, Portion;
    var ps := Positions(snapshots, signal);
    assert snapshots[..|snapshots|] == snapshots;
    SeriesOfRegular(snapshots, signal, dt, a, b, |snapshots|);
    AffineSlope(ps, a, b);
    SpanOfRegular(snapshots, signal, dt, a, b);
    SpreadOverSpan(b, Slope(ps), (|ps| - 1) as real, (|snapshots| - 1) as real, dt as real, SECOND as real, Span(snapshots));
  }

  /** So missing snapshots bend the rate. It is right exactly when the positions that
      carry data look evenly spread over the span: 0, 2 of 0..2 do, 1, 2 do not. */
  lemma {:induction false} RateRightIff(snapshots: seq<Signals>, signal: Source, dt: int, a: real, b: real)
    requires |snapshots| >= 2 && dt > 0 && b != 0.0
    requires Regular(snapshots, signal, dt, a, b)
    ensures Span(snapshots) != 0.0
    ensures PerSecond(Series(snapshots, signal), Span(snapshots)) == TrueRate(b, dt) <==> Stretch(snapshots, signal) == 1.0
  {
    hide Slope, Series, PerSecond, Span, Stretch, TrueRate;
    RateOfRegular(snapshots, signal, dt, a, b);
    TrueRateNotZero(b, dt);
    RightIff(TrueRate(b, dt), Stretch(snapshots, signal), PerSecond(Series(snapshots, signal), Span(snapshots)));
  }

  lemma {:induction false} TrueRateNotZero(b: real, dt: int)
    requires dt > 0 && b != 0.0
    ensures TrueRate(b, dt) != 0.0
  {
    var rate := TrueRate(b, dt);
    assert rate * dt as real == b * SECOND as real;
  }

  lemma {:induction false} RightIff(rate: real, stretch: real, p: real)
    requires rate != 0.0 && p == rate * stretch
    ensures p == rate <==> stretch == 1.0
  {
    NonZeroProduct(rate, stretch - 1.0);
  }

  lemma {:induction false} NonZeroProduct(x: real, y: real)
    requires x != 0.0
    ensures x * y == 0.0 <==> y == 0.0
  {
  }

  /** A signal that appears late is taken to change more slowly than it does. */
  lemma {:induction false} LateIsTooSlow(snapshots: seq<Signals>, signal: Source, late: nat)
    requires late + 2 <= |snapshots| && PresentFrom(snapshots, signal, late)
    ensures Stretch(snapshots, signal) == (|snapshots| - late - 1) as real / (|snapshots| - 1) as real
    ensures late == 0 ==> Stretch(snapshots, signal) == 1.0
    ensures late > 0 ==> Stretch(snapshots, signal) < 1.0
  {
    hide Slope, Positions, Observed;
    var n := |snapshots|;
    assert snapshots[..n] == snapshots;
    PositionsFrom(snapshots, signal, late, n);
    SlopeOfLine(Positions(snapshots, signal), late as real, 1.0);
    hide *;
    PortionOfUnit((n - late - 1) as real, (n - 1) as real);
  }

  function RunqSnapshot(second: int, delay: Option<SchedSignal>): Signals {
    Signals(second * SECOND, None, None, None, None, delay, None, None, None)
  }

  /** Three snapshots of a delay that grows by 1 ms/s; the first has no data. */
  function LateSnapshots(): seq<Signals> {
    [RunqSnapshot(0, None), RunqSnapshot(1, Some(SchedSignal(1_000_000, []))),
     RunqSnapshot(2, Some(SchedSignal(2_000_000, [])))]
  }

  lemma {:induction false} LateShape()
    ensures Regular(LateSnapshots(), Sched, SECOND, 0.0, 1_000_000.0)
    ensures PresentFrom(LateSnapshots(), Sched, 1)
  {
    var s := LateSnapshots();
    assert s[0].timestamp == 0 && s[1].timestamp == SECOND && s[2].timestamp == 2 * SECOND;
    assert Observed(s[0], Sched) == None;
    assert Observed(s[1], Sched) == Some(1_000_000.0) && Observed(s[2], Sched) == Some(2_000_000.0);
    assert Height(0.0, 1_000_000.0, 1.0) == 1_000_000.0 && Height(0.0, 1_000_000.0, 2.0) == 2_000_000.0;
    hide LateSnapshots, RunqSnapshot, Observed, Height;
  }

  /** The source takes that delay to grow by half as much. */
  lemma {:induction false} LateExample()
    ensures Span(LateSnapshots()) != 0.0
    ensures PerSecond(Series(LateSnapshots(), Sched), Span(LateSnapshots())) == 500_000.0
    ensures TrueRate(1_000_000.0, SECOND) == 1_000_000.0
  {
    LateShape();
    TrueRateOfSecond(1_000_000.0);
    assert |LateSnapshots()| == 3 && SECOND > 0;
    hide *;
    LateOfThree(LateSnapshots(), Sched, SECOND, 0.0, 1_000_000.0);
  }

  lemma {:induction false} LateOfThree(snapshots: seq<Signals>, signal: Source, dt: int, a: real, b: real)
    requires |snapshots| == 3 && dt > 0
    requires Regular(snapshots, signal, dt, a, b) && PresentFrom(snapshots, signal, 1)
    ensures Span(snapshots) != 0.0
    ensures PerSecond(Series(snapshots, signal), Span(snapshots)) == TrueRate(b, dt) / 2.0
  {
    hide Regular, PresentFrom, TrueRate, Series, Span, PerSecond, Stretch;
    RateOfRegular(snapshots, signal, dt, a, b);
    LateIsTooSlow(snapshots, signal, 1);
    Halved(TrueRate(b, dt), Stretch(snapshots, signal), PerSecond(Series(snapshots, signal), Span(snapshots)));
  }

  lemma {:induction false} TrueRateOfSecond(b: real)
    ensures TrueRate(b, SECOND) == b
  {
  }

  lemma {:induction false} Halved(rate: real, stretch: real, p: real)
    requires p == rate * stretch && stretch == 1.0 / 2.0
    ensures p == rate / 2.0
  {
  }

  lemma {:induction false} CompletePositions(snapshots: seq<Signals>, signal: Source)
    requires PresentFrom(snapshots, signal, 0)
    ensures |Positions(snapshots, signal)| == |snapshots| && OnLine(Positions(snapshots, signal), 0.0, 1.0)
  {
    hide Positions, Observed;
    assert snapshots[..|snapshots|] == snapshots;
    PositionsFrom(snapshots, signal, 0, |snapshots|);
  }

  lemma {:induction false} PortionOfUnit(m: real, n: real)
    requires 0.0 < m <= n
    ensures Portion(1.0, m, n) == m / n
    ensures m == n ==> m / n == 1.0
    ensures m < n ==> m / n < 1.0
  {
    var q := m / n;
    assert q * n == m;
    if m < n && q >= 1.0 {
      Cancelled(1.0, q, n);
    }
  }

  lemma {:induction false} SpreadOverSpan(b: real, slope: real, m: real, n: real, dt: real, second: real, span: real)
    requires n > 0.0 && dt > 0.0 && second > 0.0 && span == n * dt / second
    ensures span > 0.0
    ensures b * slope / span * m == b * second / dt * Portion(slope, m, n)
  {
    assert n * dt > 0.0;
    assert span * second == n * dt;
    var r, u, v := b * slope / span, b * second / dt, Portion(slope, m, n);
    assert r * span == b * slope && u * dt == b * second && v * n == slope * m;
    calc {
      (r * m) * (n * dt);
      r * m * (span * second);
      (r * span) * m * second;
      b * slope * m * second;
      (u * dt) * (v * n);
      (u * v) * (n * dt);
    }
    SameMultiple(r * m, u * v, n * dt);
  }

  lemma {:induction false} SameMultiple(x: real, y: real, c: real)
    requires c > 0.0 && x * c == y * c
    ensures x == y
  {
    NonZeroProduct(c, x - y);
  }

  /** On an exact line a prediction is made exactly when the line rises, has not yet
      reached the critical value and will within seven days; and then following it
      for the predicted time ends just at the critical value, to within the
      nanosecond that was cut off. */
  lemma {:induction false} ExactLine(snapshots: seq<Signals>, signal: Source, dt: int, a: real, b: real)
    requires |snapshots| >= 2 && dt > 0 && signal != FD
    requires Regular(snapshots, signal, dt, a, b) && PresentFrom(snapshots, signal, 0)
    ensures var current, rate := Height(a, b, (|snapshots| - 1) as real), TrueRate(b, dt);
            var found := TrendPrediction(snapshots, signal);
            && (found != [] <==>
                  b > 0.0 && current < Critical(signal)
                  && current + rate * (1.0 / SECOND as real) <= Critical(signal)
                  && Critical(signal) < current + rate * ((MAX_MEANINGFUL_ETA + 1) as real / SECOND as real))
            && (found != [] ==>
                  var t := found[0].timeToImpact as real;
                  && found == [Prediction(signal, found[0].timeToImpact)]
                  && current + rate * (t / SECOND as real) <= Critical(signal)
                  && Critical(signal) < current + rate * ((t + 1.0) / SECOND as real))
  {
    hide Slope, Series, Positions, Stretch, Span, PerSecond, Critical, EtaDuration, TrueRate, Height, Affine;
    RateOfRegular(snapshots, signal, dt, a, b);
    LateIsTooSlow(snapshots, signal, 0);
    CompletePositions(snapshots, signal);
    AffineSlope(Positions(snapshots, signal), a, b);
    SlopeOfLine(Positions(snapshots, signal), 0.0, 1.0);
    AffineAt(Positions(snapshots, signal), a, b, |snapshots| - 1);
    if b > 0.0 {
      RatePositive(b, dt);
      if Height(a, b, (|snapshots| - 1) as real) < Critical(signal) {
        EtaMeaning(Critical(signal) - Height(a, b, (|snapshots| - 1) as real), TrueRate(b, dt));
      }
    }
  }

  lemma {:induction false} RatePositive(b: real, dt: int)
    requires b > 0.0 && dt > 0
    ensures TrueRate(b, dt) > 0.0
  {
    assert b * SECOND as real > 0.0;
  }

  /** Descriptors left, at least one. */
  function Remaining(netDelta: int): real {
    if FD_LIMIT - netDelta as real <= 0.0 then 1.0 else FD_LIMIT - netDelta as real
  }

  /** Exhaustion is predicted exactly when descriptors have grown in two snapshots, the
      latest one has data, and at the mean growth rate what is left goes within the
      coming seven days; the ETA is when it is gone, to within a nanosecond. */
  lemma {:induction false} ExhaustionIff(snapshots: seq<Signals>)
    requires snapshots != []
    ensures var rates, latest := Series(snapshots, FD), snapshots[|snapshots| - 1].fd;
            var found, mean := FdPrediction(snapshots), Mean(rates);
            && (found != [] <==>
                  |rates| >= 2 && latest.Some?
                  && mean * (1.0 / SECOND as real) <= Remaining(latest.value.netDelta)
                  && Remaining(latest.value.netDelta) < mean * ((MAX_MEANINGFUL_ETA + 1) as real / SECOND as real))
            && (found != [] ==>
                  var t := found[0].timeToImpact as real;
                  && mean * (t / SECOND as real) <= Remaining(latest.value.netDelta)
                  && Remaining(latest.value.netDelta) < mean * ((t + 1.0) / SECOND as real))
  {
    RatesPositive(snapshots);
    hide Series, Mean, EtaDuration;
    var rates, latest := Series(snapshots, FD), snapshots[|snapshots| - 1].fd;
    if |rates| >= 2 && latest.Some? {
      EtaMeaning(Remaining(latest.value.netDelta), Mean(rates));
    }
  }
}
