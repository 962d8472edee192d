/** From the event log to the report: what a latency finding says about the calls that
    were actually made. */
module Pipeline {
  import opened Options
  import opened Recency
  import opened LruModel
  import opened HistogramModel
  import opened Percentiles
  import opened Aggregation
  import opened SyscallCollector
  import opened Sorting
  import opened FindingsKey
  import opened Signals
  import opened Rules
  import opened RuleProperties

  type Log = seq<Keyed<SyscallKey, SyscallEvent>>

  /** entries is a snapshot the collector may give after the log: all tracked rows,
      ranked and then cut. */
  ghost predicate SnapshotOf(entries: seq<SyscallRow>, log: Log, cap: nat, all: seq<SyscallRow>, ranked: seq<SyscallRow>)
    requires cap > 0
  {
    && RowsOf(all, Aggregate(log, cap).entries)
    && multiset(ranked) == multiset(all) && Sorted(ranked, RanksBefore)
    && entries == Take(ranked, MAX_ENTRIES_PER_SNAPSHOT)
  }

  /** The 99th percentile of a key's calls since it was last inserted, exactly. */
  ghost predicate ExactP99(log: Log, cap: nat, k: SyscallKey, exact: nat) {
    HasRank(Latencies(Since(log, cap, k)), Ceil(|Since(log, cap, k)| as real * 99.0 / 100.0), exact)
  }

  lemma {:induction false} LatenciesLength(es: seq<SyscallEvent>)
    ensures |Latencies(es)| == |es|
  {
    if es != [] {
      LatenciesLength(es[..|es| - 1]);
    }
  }

  lemma {:induction false} KeptAfterDrop<K, V>(es: seq<Entry<K, V>>, k: K, x: Entry<K, V>)
    requires x in Drop(es, k)
    ensures x in es
  {
    assert es == [es[0]] + es[1..];
    if x != es[0] {
      KeptAfterDrop(es[1..], k, x);
    }
  }

  /** A tracked key has events. */
  lemma {:induction false} TrackedHasEvents<K, E>(log: seq<Keyed<K, E>>, cap: nat, x: Entry<K, seq<E>>)
    requires cap > 0 && x in Aggregate(log, cap).entries
    ensures x.v != []
  {
    if log != [] {
      var before, last := log[..|log| - 1], log[|log| - 1];
      var c := Aggregate(before, cap);
      var front := Entry(last.k, Held(c, last.k) + [last.e]);
      if x != front {
        if Lookup(c.entries, last.k).Some? {
          KeptAfterDrop(c.entries, last.k, x);
        }
        assert x in c.entries;
        TrackedHasEvents(before, cap, x);
      }
    }
  }

  /** Every row of a snapshot is that of a tracked key. */
  lemma {:induction false} RowOrigin(entries: seq<SyscallRow>, log: Log, cap: nat, all: seq<SyscallRow>,
                                     ranked: seq<SyscallRow>, row: SyscallRow) returns (k: SyscallKey)
    requires cap > 0 && SnapshotOf(entries, log, cap, all, ranked) && row in entries
    ensures k in RecentKeys(log, cap) && Since(log, cap, k) != [] && row == RowOf(k, Since(log, cap, k))
  {
    hide RowOf, Aggregate, Since, RecentKeys;
    var a := Aggregate(log, cap).entries;
    assert row in ranked;
    assert row in multiset(ranked);
    assert row in all;
    var i :| 0 <= i < |all| && all[i] == row;
    k := a[i].k;
    TrackedContents(log, cap);
    assert a[i] in a;
    TrackedHasEvents(log, cap, a[i]);
    assert Keys(a)[i] == k;
    ByLastTouchNoDup(Reverse(LogKeys(log)));
    UniqueEntry(log, cap, i);
  }

  lemma {:induction false} UniqueEntry(log: Log, cap: nat, i: nat)
    requires cap > 0 && i < |Aggregate(log, cap).entries|
    ensures Lookup(Aggregate(log, cap).entries, Aggregate(log, cap).entries[i].k)
         == Some(Aggregate(log, cap).entries[i].v)
  {
    TrackedContents(log, cap);
    ByLastTouchNoDup(Reverse(LogKeys(log)));
    hide Aggregate;
    LookupAt(Aggregate(log, cap).entries, i);
  }

  /** The accuracy of the histogram without its buckets. */
  lemma {:induction false} WithinTwo(s: seq<Sample>, p: real, exact: nat)
    requires 0.0 < p < 100.0 && HasRank(s, Ceil(|s| as real * p / 100.0), exact)
    ensures var e := PercentileOf(Summarize(s), p);
            e < 2 * exact && (exact < TWO64 / 2 ==> e < TWO64 / 2 && 2 * e >= exact)
  {
    var e := PercentileOf(Summarize(s), p);
    hide *;
    PercentileAccuracy(s, p, exact);
    var b :| 0 <= b < BUCKETS && Pow2(b) <= exact < Pow2(b + 1) && Pow2(b) <= e < Pow2(b + 1)
             && (b < 63 ==> 2 * Distance(e, exact) <= Pow2(b)) && e < 2 * exact;
    BelowTop(b, e, exact);
  }

  lemma {:induction false} BelowTop(b: nat, e: nat, exact: nat)
    requires b < BUCKETS && Pow2(b) <= exact && e < Pow2(b + 1)
    requires b < 63 ==> 2 * Distance(e, exact) <= Pow2(b)
    ensures exact < TWO64 / 2 ==> e < TWO64 / 2 && 2 * e >= exact
  {
    Pow2At63();
    hide Pow2;
    if b < 63 {
      Pow2Monotone(b + 1, 63);
    }
  }

  /** The reported 99th percentile of some calls against the exact one. */
  lemma {:induction false} ReportedP99(es: seq<SyscallEvent>, exact: nat)
    requires es != [] && HasRank(Latencies(es), Ceil(|es| as real * 99.0 / 100.0), exact)
    ensures PercentilesOf(Latencies(es)).p99 < 2 * exact
    ensures exact < TWO64 / 2 ==> 2 * PercentilesOf(Latencies(es)).p99 >= exact
  {
    LatenciesLength(es);
    WithinTwo(Latencies(es), 99.0, exact);
    hide Summarize, HasRank, PercentileOf, Latencies, Ceil;
    assert PercentilesOf(Latencies(es)).p99 == ToDuration(PercentileOf(Summarize(Latencies(es)), 99.0));
  }

  /** Main result: a latency finding is about some tracked non-blocking key, and the
      latency it names is within a factor of two of the exact 99th percentile of that
      key's calls since it was inserted. */
  lemma {:induction false} FindingIsReal(entries: seq<SyscallRow>, log: Log, cap: nat, all: seq<SyscallRow>,
                                         ranked: seq<SyscallRow>, t: Thresholds) returns (k: SyscallKey, exact: nat)
    requires cap > 0 && SnapshotOf(entries, log, cap, all, ranked)
    requires SyscallLatencyHigh(Some(entries), t) != []
    ensures k in RecentKeys(log, cap) && !IsBlockingSyscall(k.nr) && ExactP99(log, cap, k, exact)
    ensures var f := SyscallLatencyHigh(Some(entries), t)[0];
            && f.process == k.comm && f.value < 2.0 * exact as real
            && (exact < TWO64 / 2 ==> 2.0 * f.value >= exact as real)
  {
    var row := TopRow(entries, t);
    k := RowOrigin(entries, log, cap, all, ranked, row);
    exact := ExactExists(Since(log, cap, k));
    ReportedP99(Since(log, cap, k), exact);
    hide RecentKeys, Since, SnapshotOf, HasRank, Latencies, Errors, PercentilesOf, Ceil, SyscallLatencyHigh;
  }

  /** Main result: because the collector ranks before it cuts, every finding of a report
      on one of its snapshots reaches its threshold; and the latency finding is about the
      worst non-blocking row, exists exactly when that reaches the warning level, and is
      critical exactly when it reaches the critical one. */
  lemma {:induction false} FindingsReachThresholds(s: Signals, entries: seq<SyscallRow>, log: Log, cap: nat,
                                                   all: seq<SyscallRow>, ranked: seq<SyscallRow>, t: Thresholds)
    requires cap > 0 && SnapshotOf(entries, log, cap, all, ranked) && s.syscall == Some(entries)
    ensures forall f :: f in Report(s, t) ==> Exceeds(f)
    ensures SyscallLatencyHigh(s.syscall, t) == [] <==>
              forall e :: e in entries && !IsBlockingSyscall(e.nr) ==> e.latency.p99 < t.syscallWarning
    ensures SyscallLatencyHigh(s.syscall, t) != [] ==>
              var f := SyscallLatencyHigh(s.syscall, t)[0];
              && (exists e :: e in entries && !IsBlockingSyscall(e.nr) && f.value == e.latency.p99 as real && f.process == e.comm)
              && (forall e :: e in entries && !IsBlockingSyscall(e.nr) ==> e.latency.p99 as real <= f.value)
              && (f.severity == Critical <==> f.value >= t.syscallCritical as real)
  {
    SnapshotIsWorstFirst(ranked);
    hide SyscallLatencyHigh, HeadlineHolds, Found, Report, Exceeds;
    HeadlineIsWorst(entries, t);
    ReportExceedsIff(s, t);
  }

  /** The row that a latency finding is about. */
  lemma {:induction false} TopRow(entries: seq<SyscallRow>, t: Thresholds) returns (row: SyscallRow)
    requires SyscallLatencyHigh(Some(entries), t) != []
    ensures row in entries && !IsBlockingSyscall(row.nr)
    ensures var f := SyscallLatencyHigh(Some(entries), t)[0]; f.process == row.comm && f.value == row.latency.p99 as real
  {
    HotMembers(entries, t);
    row := Hot(entries, t)[0];
    assert row in Hot(entries, t);
  }

  lemma {:induction false} ExactExists(es: seq<SyscallEvent>) returns (exact: nat)
    requires es != []
    ensures HasRank(Latencies(es), Ceil(|es| as real * 99.0 / 100.0), exact)
  {
    LatenciesLength(es);
    RankInRange(|es|);
    hide *;
    exact := RankExists(Latencies(es), Ceil(|es| as real * 99.0 / 100.0));
  }

  lemma {:induction false} RankInRange(n: nat)
    requires n > 0
    ensures 1 <= Ceil(n as real * 99.0 / 100.0) <= n
  {
  }

  /** And the other way: a tracked non-blocking key whose exact 99th percentile is at
      least twice the warning level is not passed over, if its row made the cut. */
  lemma {:induction false} SlowKeyIsReported(entries: seq<SyscallRow>, log: Log, cap: nat, t: Thresholds,
                                             k: SyscallKey, exact: nat)
    requires cap > 0 && !IsBlockingSyscall(k.nr) && Since(log, cap, k) != []
    requires RowOf(k, Since(log, cap, k)) in entries
    requires ExactP99(log, cap, k, exact) && 2 * t.syscallWarning <= exact < TWO64 / 2
    ensures SyscallLatencyHigh(Some(entries), t) != []
  {
    hide Since, HasRank;
    HotMembers(entries, t);
    ReportedP99(Since(log, cap, k), exact);
    assert IsHot(RowOf(k, Since(log, cap, k)), t);
    assert RowOf(k, Since(log, cap, k)) in Hot(entries, t);
  }
}
