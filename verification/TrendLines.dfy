/** What is predicted, stated on the fields of the snapshots and with the critical
    values written out. */
module TrendLines {
  import opened Options
  import opened Regression
  import opened Sorting
  import opened Eta
  import opened Signals
  import opened Prediction

  /** Change per second as the source sees it, of a line that rises by b in dt
      nanoseconds and is missing from the first `late` of n snapshots. */
  function SeenRate(b: real, dt: int, late: nat, n: nat): real
    requires dt > 0 && n >= 2
  {
    b * 1_000_000_000.0 / dt as real * ((n - late - 1) as real / (n - 1) as real)
  }

  lemma {:induction false} SeenRateIs(b: real, dt: int, late: nat, n: nat, stretch: real)
    requires dt > 0 && late + 2 <= n && stretch == (n - late - 1) as real / (n - 1) as real
    ensures TrueRate(b, dt) * stretch == SeenRate(b, dt, late, n)
    ensures SeenRate(b, dt, late, n) > 0.0 <==> b > 0.0
  {
    var rate, seen := TrueRate(b, dt), b * 1_000_000_000.0 / dt as real;
    assert rate == seen;
    assert stretch > 0.0 by {
      assert stretch * (n - 1) as real == (n - late - 1) as real;
    }
    Signed(rate, stretch);
    hide *;
  }

  lemma {:induction false} Signed(x: real, y: real)
    requires y > 0.0
    ensures x * y > 0.0 <==> x > 0.0
  {
  }

  lemma {:induction false} ReportedAlone(snapshots: seq<Signals>, signal: Source, e: int)
    requires |snapshots| >= 2
    ensures Prediction(signal, e) in Report(snapshots) <==> Found(snapshots, signal) == [Prediction(signal, e)]
  {
    ReportOrdered(snapshots);
    FoundShape(snapshots, signal);
    hide Report, Found, Unsorted, StablySorts;
    var found := Found(snapshots, signal);
    if found != [] {
      assert found == [found[0]];
    }
  }

  /** A signal that lies on a line from the snapshot `late` on is predicted to become
      critical when the line, followed at its stretched rate, gets there. */
  lemma {:induction false} LateLine(snapshots: seq<Signals>, signal: Source, dt: int, a: real, b: real, late: nat, e: int)
    requires late + 2 <= |snapshots| && dt > 0 && signal != FD
    requires Regular(snapshots, signal, dt, a, b) && PresentFrom(snapshots, signal, late)
    ensures Prediction(signal, e) in Report(snapshots) <==>
              GoneIn(e, Critical(signal) - Height(a, b, (|snapshots| - 1) as real), SeenRate(b, dt, late, |snapshots|))
  {
    hide Slope, Series, Positions, Stretch, Span, PerSecond, Critical, EtaDuration, TrueRate, Height, Affine, Report, GoneIn, SeenRate;
    ReportedAlone(snapshots, signal, e);
    RateOfRegular(snapshots, signal, dt, a, b);
    LateIsTooSlow(snapshots, signal, late);
    LateSlope(snapshots, signal, dt, a, b, late);
    SeenRateIs(b, dt, late, |snapshots|, Stretch(snapshots, signal));
    var rate := SeenRate(b, dt, late, |snapshots|);
    ImpactIff(Series(snapshots, signal), Span(snapshots), Critical(signal), rate);
    hide Impact, Found;
    FoundIff(snapshots, signal, Critical(signal) - Height(a, b, (|snapshots| - 1) as real), rate, e);
  }

  lemma {:induction false} ImpactIff(values: seq<real>, span: real, critical: real, rate: real)
    requires |values| >= 2 && span > 0.0 && PerSecond(values, span) == rate
    requires rate > 0.0 <==> Slope(values) > 0.0
    ensures EtaOf(Impact(values, span, critical), critical - values[|values| - 1], rate)
  {
    hide Slope, PerSecond, EtaDuration, GoneIn;
    EtaIff(critical - values[|values| - 1], rate);
  }

  lemma {:induction false} FoundIff(snapshots: seq<Signals>, signal: Source, left: real, rate: real, e: int)
    requires snapshots != [] && signal != FD
    requires EtaOf(Impact(Series(snapshots, signal), Span(snapshots), Critical(signal)), left, rate)
    ensures Found(snapshots, signal) == [Prediction(signal, e)] <==> GoneIn(e, left, rate)
  {
    hide Impact, Series, Span, Critical, GoneIn;
    assert Impact(Series(snapshots, signal), Span(snapshots), Critical(signal)) == Some(e) <==> GoneIn(e, left, rate);
  }

  lemma {:induction false} LateSlope(snapshots: seq<Signals>, signal: Source, dt: int, a: real, b: real, late: nat)
    requires late + 2 <= |snapshots| && dt > 0
    requires Regular(snapshots, signal, dt, a, b) && PresentFrom(snapshots, signal, late)
    ensures var values := Series(snapshots, signal);
            && |values| == |snapshots| - late
            && Slope(values) == b
            && values[|values| - 1] == Height(a, b, (|snapshots| - 1) as real)
  {
    hide Slope, Series, Positions, Span, PerSecond, TrueRate, Height, Affine, Regular, Observed, Stretch;
    var ps := Positions(snapshots, signal);
    RateOfRegular(snapshots, signal, dt, a, b);
    assert snapshots[..|snapshots|] == snapshots;
    PositionsFrom(snapshots, signal, late, |snapshots|);
    AffineSlope(ps, a, b);
    SlopeOfLine(ps, late as real, 1.0);
    AffineAt(ps, a, b, |ps| - 1);
  }

  // ---- Latencies and rates on a line ----

  /** Snapshots dt nanoseconds apart. */
  ghost predicate Spaced(snapshots: seq<Signals>, dt: int) {
    forall i :: 0 <= i < |snapshots| ==> snapshots[i].timestamp == snapshots[0].timestamp + i * dt
  }

  /** The P99 of disk syncs, towards 200 ms. A snapshot without syncs does not count. */
  lemma {:induction false} DiskLine(snapshots: seq<Signals>, dt: int, a: real, b: real, late: nat, e: int)
    requires late + 2 <= |snapshots| && dt > 0 && Spaced(snapshots, dt)
    requires forall i :: 0 <= i < late ==> snapshots[i].disk.None? || snapshots[i].disk.value.syncP99 <= 0
    requires forall i :: late <= i < |snapshots| ==>
               && snapshots[i].disk.Some? && snapshots[i].disk.value.syncP99 > 0
               && snapshots[i].disk.value.syncP99 as real == Height(a, b, i as real)
    ensures Prediction(DiskIO, e) in Report(snapshots) <==>
              GoneIn(e, 200_000_000.0 - Height(a, b, (|snapshots| - 1) as real), SeenRate(b, dt, late, |snapshots|))
  {
    hide Report, GoneIn, Height, SeenRate;
    LateLine(snapshots, DiskIO, dt, a, b, late, e);
  }

  /** The P99 of run-queue delays, towards 20 ms. */
  lemma {:induction false} SchedLine(snapshots: seq<Signals>, dt: int, a: real, b: real, late: nat, e: int)
    requires late + 2 <= |snapshots| && dt > 0 && Spaced(snapshots, dt)
    requires forall i :: 0 <= i < late ==> snapshots[i].sched.None? || snapshots[i].sched.value.runqP99 <= 0
    requires forall i :: late <= i < |snapshots| ==>
               && snapshots[i].sched.Some? && snapshots[i].sched.value.runqP99 > 0
               && snapshots[i].sched.value.runqP99 as real == Height(a, b, i as real)
    ensures Prediction(Sched, e) in Report(snapshots) <==>
              GoneIn(e, 20_000_000.0 - Height(a, b, (|snapshots| - 1) as real), SeenRate(b, dt, late, |snapshots|))
  {
    hide Report, GoneIn, Height, SeenRate;
    LateLine(snapshots, Sched, dt, a, b, late, e);
  }

  /** The TCP retransmit rate, towards 2%. Here a rate of zero counts. */
  lemma {:induction false} TcpLine(snapshots: seq<Signals>, dt: int, a: real, b: real, late: nat, e: int)
    requires late + 2 <= |snapshots| && dt > 0 && Spaced(snapshots, dt)
    requires forall i :: 0 <= i < late ==> snapshots[i].tcp.None?
    requires forall i :: late <= i < |snapshots| ==>
               snapshots[i].tcp.Some? && snapshots[i].tcp.value.retransmitRate == Height(a, b, i as real)
    ensures Prediction(TCP, e) in Report(snapshots) <==>
              GoneIn(e, 2.0 - Height(a, b, (|snapshots| - 1) as real), SeenRate(b, dt, late, |snapshots|))
  {
    hide Report, GoneIn, Height, SeenRate;
    LateLine(snapshots, TCP, dt, a, b, late, e);
  }

  // ---- Descriptor growth ----

  predicate Growing(fd: Option<FdSignal>) {
    fd.Some? && fd.value.growthRate > 0.0
  }

  /** How many snapshots show growth. */
  function GrowthCount(snapshots: seq<Signals>): nat {
    if snapshots == [] then 0
    else GrowthCount(snapshots[..|snapshots| - 1]) + if Growing(snapshots[|snapshots| - 1].fd) then 1 else 0
  }

  function GrowthSum(snapshots: seq<Signals>): real {
    if snapshots == [] then 0.0
    else
      var last := snapshots[|snapshots| - 1].fd;
      GrowthSum(snapshots[..|snapshots| - 1]) + if Growing(last) then last.value.growthRate else 0.0
  }

  lemma {:induction false} GrowthIsSeries(snapshots: seq<Signals>)
    ensures |Series(snapshots, FD)| == GrowthCount(snapshots)
    ensures Sum(Series(snapshots, FD)) == GrowthSum(snapshots)
  {
    if snapshots != [] {
      var front, rates := snapshots[..|snapshots| - 1], Series(snapshots, FD);
      GrowthIsSeries(front);
      assert rates != Series(front, FD) ==> rates[..|rates| - 1] == Series(front, FD);
    }
  }

  /** Descriptors run out when those left of 65536 in the latest snapshot, at least one,
      are used up at the average of the growth rates above zero. */
  lemma {:induction false} DescriptorsRunOut(snapshots: seq<Signals>, e: int)
    requires |snapshots| >= 2
    ensures var latest, count := snapshots[|snapshots| - 1].fd, GrowthCount(snapshots);
            Prediction(FD, e) in Report(snapshots) <==>
              && count >= 2 && latest.Some?
              && GoneIn(e, if latest.value.netDelta < 65536 then 65536.0 - latest.value.netDelta as real else 1.0,
                        GrowthSum(snapshots) / count as real)
  {
    ReportedAlone(snapshots, FD, e);
    GrowthIsSeries(snapshots);
    FdFoundIff(snapshots, e);
    hide *;
  }

  lemma {:induction false} FdFoundIff(snapshots: seq<Signals>, e: int)
    requires snapshots != []
    ensures var rates, latest := Series(snapshots, FD), snapshots[|snapshots| - 1].fd;
            Found(snapshots, FD) == [Prediction(FD, e)] <==>
              && |rates| >= 2 && latest.Some?
              && GoneIn(e, if latest.value.netDelta < 65536 then 65536.0 - latest.value.netDelta as real else 1.0,
                        Sum(rates) / |rates| as real)
  {
    RatesPositive(snapshots);
    hide Series, GoneIn, EtaDuration, Sum;
    var latest, rates := snapshots[|snapshots| - 1].fd, Series(snapshots, FD);
    if |rates| >= 2 && latest.Some? {
      var left := if latest.value.netDelta < 65536 then 65536.0 - latest.value.netDelta as real else 1.0;
      EtaIff(left, Mean(rates));
      assert EtaDuration(left / Mean(rates)) == Some(e) <==> GoneIn(e, left, Mean(rates));
    }
  }
}
