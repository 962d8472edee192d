/** Which signals make a report critical, and which make it anything but healthy. */
module RuleLevels {
  import opened Options
  import opened SyscallCollector
  import opened FindingsKey
  import opened Findings
  import opened Eta
  import opened Signals
  import opened Sorting
  import opened Rules
  import opened RuleProperties

  // ---- Stated on the signals alone ----

  predicate DiskCritical(s: Option<DiskSignal>, t: Thresholds) {
    s.Some? && ((s.value.syncP99 > 0 && s.value.syncP99 >= t.diskCritical) || s.value.writeP99 >= t.diskCritical)
  }

  predicate DiskNoticed(s: Option<DiskSignal>, t: Thresholds) {
    DiskCritical(s, t) || (s.Some? && s.value.syncP99 > 0 && s.value.syncP99 >= t.diskWarning)
  }

  predicate Killed(s: Option<OomSignal>) {
    s.Some? && s.value.count != 0 && s.value.victims != []
  }

  predicate Retransmitting(s: Option<TcpSignal>, t: Thresholds) {
    s.Some? && s.value.retransmitRate >= t.tcpRetransmitPct
  }

  predicate SlowRoundTrips(s: Option<TcpSignal>) {
    s.Some? && s.value.rttP99 >= RTT_THRESHOLD
  }

  predicate SchedNoticed(s: Option<SchedSignal>, t: Thresholds) {
    s.Some? && s.value.runqP99 >= t.schedWarning
  }

  predicate SchedCritical(s: Option<SchedSignal>, t: Thresholds) {
    SchedNoticed(s, t) && s.value.runqP99 >= t.schedCritical
  }

  predicate Leaking(s: Option<FdSignal>, t: Thresholds) {
    s.Some? && s.value.growthRate >= t.fdGrowthPerSec
  }

  predicate MemoryNoticed(s: Option<MemorySignal>, t: Thresholds) {
    s.Some? && 0.0 <= t.oomMemoryPct <= s.value.usedPct
  }

  predicate MemoryCritical(s: Option<MemorySignal>, t: Thresholds) {
    MemoryNoticed(s, t) && s.value.usedPct > 95.0 && s.value.growthRate > 0.0
  }

  /** Some non-blocking call is slow enough to be noticed, and reaches the given level. */
  ghost predicate SlowCalls(s: Option<seq<SyscallRow>>, t: Thresholds, level: int) {
    s.Some? && exists e :: e in s.value && !IsBlockingSyscall(e.nr) && e.latency.p99 >= t.syscallWarning && e.latency.p99 >= level
  }

  /** Some non-blocking call fails in at least the given percentage of cases. */
  ghost predicate FailingCalls(s: Option<seq<SyscallRow>>, pct: real) {
    s.Some? && exists e :: e in s.value && !IsBlockingSyscall(e.nr) && e.errorCount != 0 && ErrorPct(e) >= pct
  }

  ghost predicate ContainersCritical(s: Option<seq<CgroupSignal>>) {
    s.Some? && exists c :: c in s.value && c.limit != 0 && c.usedPct >= 95.0 && c.growthRate > 0.0
  }

  ghost predicate ContainersNoticed(s: Option<seq<CgroupSignal>>) {
    s.Some? && exists c :: c in s.value && ((c.limit != 0 && c.usedPct >= 85.0) || c.highEventRate >= 1.0)
  }

  ghost predicate CriticalSignals(s: Signals, t: Thresholds) {
    || DiskCritical(s.disk, t) || Killed(s.oom) || Retransmitting(s.tcp, t) || SchedCritical(s.sched, t)
    || SlowCalls(s.syscall, t, t.syscallCritical) || MemoryCritical(s.memory, t) || FailingCalls(s.syscall, 10.0)
    || ContainersCritical(s.cgroups)
  }

  ghost predicate NoticedSignals(s: Signals, t: Thresholds) {
    || DiskNoticed(s.disk, t) || Killed(s.oom) || Retransmitting(s.tcp, t) || SlowRoundTrips(s.tcp)
    || SchedNoticed(s.sched, t) || Leaking(s.fd, t) || SlowCalls(s.syscall, t, t.syscallWarning)
    || MemoryNoticed(s.memory, t) || FailingCalls(s.syscall, 1.0) || ContainersNoticed(s.cgroups)
  }

  // ---- Against the findings ----

  ghost predicate AnyAlarm(fs: seq<Finding>) {
    exists f :: f in fs && f.severity == Critical
  }

  ghost predicate NoInfo(fs: seq<Finding>) {
    forall f :: f in fs ==> f.severity != Info
  }

  /** What the levels of some findings show. */
  ghost predicate Shows(fs: seq<Finding>, critical: bool, noticed: bool) {
    (critical <==> AnyAlarm(fs)) && (noticed <==> fs != []) && NoInfo(fs)
  }

  lemma {:induction false} Both(a: seq<Finding>, b: seq<Finding>)
    ensures AnyAlarm(a + b) <==> AnyAlarm(a) || AnyAlarm(b)
    ensures NoInfo(a + b) <==> NoInfo(a) && NoInfo(b)
  {
    forall f
      ensures f in a + b <==> f in a || f in b
    {
    }
    if AnyAlarm(a) {
      var f :| f in a && f.severity == Critical;
      assert f in a + b;
    }
    if AnyAlarm(b) {
      var f :| f in b && f.severity == Critical;
      assert f in a + b;
    }
  }

  lemma {:induction false} ShowsOne(f: Finding)
    requires f.severity != Info
    ensures Shows([f], f.severity == Critical, true)
  {
    assert f in [f];
  }

  lemma {:induction false} ShowsNone()
    ensures Shows([], false, false)
  {
  }

  lemma {:induction false} Sum(a: seq<Finding>, ca: bool, na: bool, b: seq<Finding>, cb: bool, nb: bool)
    requires Shows(a, ca, na) && Shows(b, cb, nb)
    ensures Shows(a + b, ca || cb, na || nb)
  {
    hide AnyAlarm, NoInfo;
    Both(a, b);
  }

  lemma {:induction false} DiskShows(s: Option<DiskSignal>, t: Thresholds)
    ensures Shows(DiskIOBottleneck(s, t), DiskCritical(s, t), DiskNoticed(s, t))
  {
    if s.Some? {
      var fs := DiskIOBottleneck(s, t);
      if s.value.syncP99 > 0 && s.value.syncP99 >= t.diskCritical {
        assert fs[0] in fs;
      }
      if s.value.writeP99 >= t.diskCritical {
        assert fs[|fs| - 1] in fs;
      }
    }
  }

  lemma {:induction false} OomShows(s: Option<OomSignal>)
    ensures Shows(OOMKillOccurred(s), Killed(s), Killed(s))
  {
    if s.Some? && s.value.count != 0 {
      VictimShape(s.value.victims);
      if s.value.victims != [] {
        assert OOMKillOccurred(s)[0] in OOMKillOccurred(s);
      }
    }
  }

  lemma {:induction false} LatencyShows(s: Option<seq<SyscallRow>>, t: Thresholds)
    ensures Shows(SyscallLatencyHigh(s, t), SlowCalls(s, t, t.syscallCritical), SlowCalls(s, t, t.syscallWarning))
  {
    if s.Some? {
      HotMembers(s.value, t);
      CriticalRows(s.value, t);
      hide Shows, AnyCritical;
      ShowsNone();
      ShowsSingle(SyscallLatencyHigh(s, t));
      if Hot(s.value, t) == [] {
        assert forall e :: e in s.value ==> !IsHot(e, t);
      } else {
        assert Hot(s.value, t)[0] in Hot(s.value, t);
      }
    }
  }

  lemma {:induction false} CriticalRows(entries: seq<SyscallRow>, t: Thresholds)
    ensures AnyCritical(entries, t) <==> SlowCalls(Some(entries), t, t.syscallCritical)
  {
    if AnyCritical(entries, t) {
      var i :| 0 <= i < |entries| && IsHot(entries[i], t) && entries[i].latency.p99 >= t.syscallCritical;
      assert entries[i] in entries;
    }
    if SlowCalls(Some(entries), t, t.syscallCritical) {
      var e :| e in entries && !IsBlockingSyscall(e.nr) && e.latency.p99 >= t.syscallWarning
               && e.latency.p99 >= t.syscallCritical;
      var i :| 0 <= i < |entries| && entries[i] == e;
      assert IsHot(entries[i], t);
    }
  }

  lemma {:induction false} ErrorRateShows(s: Option<seq<SyscallRow>>)
    ensures Shows(SyscallErrorRate(s), FailingCalls(s, 10.0), FailingCalls(s, 1.0))
  {
    if s.Some? {
      forall e | e in s.value
        ensures Failing(e) <==> !IsBlockingSyscall(e.nr) && e.errorCount != 0 && ErrorPct(e) >= 1.0
      {
      }
      hide ErrorPct, Failing, Shows;
      FailingMembers(s.value);
      ShowsNone();
      ShowsSingle(SyscallErrorRate(s));
      var failing := FailingOf(s.value);
      if failing == [] {
        assert forall e :: e in s.value ==> e !in failing;
      } else {
        ForemostIsMaximum(failing);
      }
    }
  }

  /** A rule applied container by container shows what it shows of some container. */
  lemma {:induction false} ContainersShow(cs: seq<CgroupSignal>, rule: CgroupSignal -> seq<Finding>)
    ensures AnyAlarm(PerContainer(cs, rule)) <==> exists c :: c in cs && AnyAlarm(rule(c))
    ensures PerContainer(cs, rule) != [] <==> exists c :: c in cs && rule(c) != []
    ensures (forall c :: c in cs ==> NoInfo(rule(c))) ==> NoInfo(PerContainer(cs, rule))
  {
    if cs != [] {
      var front, c := cs[..|cs| - 1], cs[|cs| - 1];
      ContainersShow(front, rule);
      Both(PerContainer(front, rule), rule(c));
      hide AnyAlarm, NoInfo;
      assert forall x :: x in cs <==> x in front || x == c;
    }
  }

  lemma {:induction false} PressureShows(c: CgroupSignal)
    ensures Shows(Pressure(c), c.limit != 0 && c.usedPct >= 95.0 && c.growthRate > 0.0, c.limit != 0 && c.usedPct >= 85.0)
    ensures Shows(Throttling(c), false, c.highEventRate >= 1.0)
  {
    hide Shows, EtaDuration;
    ShowsSingle(Pressure(c));
    ShowsSingle(Throttling(c));
  }

  lemma {:induction false} CgroupsShow(s: Option<seq<CgroupSignal>>)
    ensures Shows(MemoryLimitPressure(s) + MemoryHighThrottling(s), ContainersCritical(s), ContainersNoticed(s))
  {
    if s.None? {
      assert MemoryLimitPressure(s) + MemoryHighThrottling(s) == [];
      ShowsNone();
    } else {
      hide AnyAlarm, NoInfo, Pressure, Throttling, PerContainer;
      var cs := s.value;
      Both(PerContainer(cs, Pressure), PerContainer(cs, Throttling));
      ContainersShow(cs, Pressure);
      ContainersShow(cs, Throttling);
      forall c | c in cs
        ensures Shows(Pressure(c), c.limit != 0 && c.usedPct >= 95.0 && c.growthRate > 0.0, c.limit != 0 && c.usedPct >= 85.0)
        ensures Shows(Throttling(c), false, c.highEventRate >= 1.0)
      {
        PressureShows(c);
      }
    }
  }

  lemma {:induction false} BranchingShow(s: Signals, t: Thresholds)
    ensures Shows(TCPRetransmitStorm(s.tcp, t), Retransmitting(s.tcp, t), Retransmitting(s.tcp, t))
    ensures Shows(TCPRTTDegradation(s.tcp), false, SlowRoundTrips(s.tcp))
    ensures Shows(SchedulerContention(s.sched, t), SchedCritical(s.sched, t), SchedNoticed(s.sched, t))
    ensures Shows(FDLeak(s.fd, t), false, Leaking(s.fd, t))
    ensures Shows(OOMImminent(s.memory, t), MemoryCritical(s.memory, t), MemoryNoticed(s.memory, t))
  {
    hide Shows, EtaDuration;
    ShowsNone();
    ShowsSingle(TCPRetransmitStorm(s.tcp, t));
    ShowsSingle(TCPRTTDegradation(s.tcp));
    ShowsSingle(SchedulerContention(s.sched, t));
    ShowsSingle(FDLeak(s.fd, t));
    ShowsSingle(OOMImminent(s.memory, t));
  }

  lemma {:induction false} ShowsSingle(fs: seq<Finding>)
    requires |fs| <= 1 && (fs != [] ==> fs[0].severity != Info)
    ensures Shows(fs, fs != [] && fs[0].severity == Critical, fs != [])
  {
    if fs != [] {
      assert fs == [fs[0]];
      ShowsOne(fs[0]);
    }
  }

  lemma {:induction false} FoundShows(s: Signals, t: Thresholds)
    ensures Shows(Found(s, t), CriticalSignals(s, t), NoticedSignals(s, t))
  {
    DiskShows(s.disk, t);
    OomShows(s.oom);
    BranchingShow(s, t);
    LatencyShows(s.syscall, t);
    ErrorRateShows(s.syscall);
    CgroupsShow(s.cgroups);
    hide Shows, DiskIOBottleneck, OOMKillOccurred, TCPRetransmitStorm, TCPRTTDegradation, SchedulerContention, FDLeak,
      SyscallLatencyHigh, OOMImminent, SyscallErrorRate, MemoryLimitPressure, MemoryHighThrottling,
      DiskCritical, DiskNoticed, Killed, Retransmitting, SlowRoundTrips, SchedCritical, SchedNoticed, Leaking,
      MemoryCritical, MemoryNoticed, SlowCalls, FailingCalls, ContainersCritical, ContainersNoticed;
    var fs, c, n := DiskIOBottleneck(s.disk, t), DiskCritical(s.disk, t), DiskNoticed(s.disk, t);
    fs, c, n := Next(fs, c, n, OOMKillOccurred(s.oom), Killed(s.oom), Killed(s.oom));
    fs, c, n := Next(fs, c, n, TCPRetransmitStorm(s.tcp, t), Retransmitting(s.tcp, t), Retransmitting(s.tcp, t));
    fs, c, n := Next(fs, c, n, TCPRTTDegradation(s.tcp), false, SlowRoundTrips(s.tcp));
    fs, c, n := Next(fs, c, n, SchedulerContention(s.sched, t), SchedCritical(s.sched, t), SchedNoticed(s.sched, t));
    fs, c, n := Next(fs, c, n, FDLeak(s.fd, t), false, Leaking(s.fd, t));
    fs, c, n := Next(fs, c, n, SyscallLatencyHigh(s.syscall, t), SlowCalls(s.syscall, t, t.syscallCritical),
                     SlowCalls(s.syscall, t, t.syscallWarning));
    fs, c, n := Next(fs, c, n, OOMImminent(s.memory, t), MemoryCritical(s.memory, t), MemoryNoticed(s.memory, t));
    fs, c, n := Next(fs, c, n, SyscallErrorRate(s.syscall), FailingCalls(s.syscall, 10.0), FailingCalls(s.syscall, 1.0));
    Sum(fs, c, n, MemoryLimitPressure(s.cgroups) + MemoryHighThrottling(s.cgroups),
        ContainersCritical(s.cgroups), ContainersNoticed(s.cgroups));
    Grouped(fs, MemoryLimitPressure(s.cgroups), MemoryHighThrottling(s.cgroups));
  }

  lemma {:induction false} Next(a: seq<Finding>, ca: bool, na: bool, b: seq<Finding>, cb: bool, nb: bool)
      returns (fs: seq<Finding>, c: bool, n: bool)
    requires Shows(a, ca, na) && Shows(b, cb, nb)
    ensures fs == a + b && c == (ca || cb) && n == (na || nb) && Shows(fs, c, n)
  {
    hide Shows;
    Sum(a, ca, na, b, cb, nb);
    fs, c, n := a + b, ca || cb, na || nb;
  }

  lemma {:induction false} Grouped(a: seq<Finding>, b: seq<Finding>, c: seq<Finding>)
    ensures a + b + c == a + (b + c)
  {
  }

  /** Main result: a report's headline is critical exactly when some signal is, and it
      is the healthy finding exactly when no signal is even noticed. */
  lemma {:induction false} HeadlineIff(s: Signals, t: Thresholds)
    ensures Report(s, t) != []
    ensures Report(s, t)[0].severity == Critical <==> CriticalSignals(s, t)
    ensures Report(s, t)[0].severity == Info <==> !NoticedSignals(s, t)
    ensures Report(s, t) == [HEALTHY_SYSTEM] <==> !NoticedSignals(s, t)
  {
    FoundShows(s, t);
    HealthyExactlyWhenAlone(s, t);
    hide Found, CriticalSignals, NoticedSignals, StableSort;
    var all := OrHealthy(Found(s, t));
    TopIsWorst(all);
    WorstIsMaximum(all);
    SameMembers(s, t, Report(s, t)[0]);
    assert Report(s, t)[0] in Report(s, t);
  }
}
