/** Worse signals never yield a milder report. */
module RuleMonotone {
  import opened Options
  import opened SyscallCollector
  import opened Findings
  import opened RuleLevels
  import opened Rules
  import opened Signals

  // ---- When one window is at least as bad as another ----

  predicate DiskWorse(bad: Option<DiskSignal>, good: Option<DiskSignal>) {
    good.Some? ==> bad.Some? && bad.value.syncP99 >= good.value.syncP99 && bad.value.writeP99 >= good.value.writeP99
  }

  /** The collector sets the count to the number of events it lists. */
  predicate OomCounted(s: Option<OomSignal>) {
    s.Some? ==> s.value.count == |s.value.victims|
  }

  predicate OomWorse(bad: Option<OomSignal>, good: Option<OomSignal>) {
    good.Some? ==> bad.Some? && bad.value.count >= good.value.count
  }

  predicate TcpWorse(bad: Option<TcpSignal>, good: Option<TcpSignal>) {
    good.Some? ==> bad.Some? && bad.value.retransmitRate >= good.value.retransmitRate && bad.value.rttP99 >= good.value.rttP99
  }

  predicate SchedWorse(bad: Option<SchedSignal>, good: Option<SchedSignal>) {
    good.Some? ==> bad.Some? && bad.value.runqP99 >= good.value.runqP99
  }

  predicate FdWorse(bad: Option<FdSignal>, good: Option<FdSignal>) {
    good.Some? ==> bad.Some? && bad.value.growthRate >= good.value.growthRate
  }

  predicate MemoryWorse(bad: Option<MemorySignal>, good: Option<MemorySignal>) {
    good.Some? ==> bad.Some? && bad.value.usedPct >= good.value.usedPct && bad.value.growthRate >= good.value.growthRate
  }

  predicate RowWorse(bad: SyscallRow, good: SyscallRow) {
    bad.nr == good.nr && bad.latency.p99 >= good.latency.p99 && bad.count == good.count && bad.errorCount >= good.errorCount
  }

  /** Every line of one snapshot has a worse counterpart in the other, in any order. */
  ghost predicate SyscallWorse(bad: Option<seq<SyscallRow>>, good: Option<seq<SyscallRow>>) {
    good.Some? ==> bad.Some? && forall g :: g in good.value ==> exists b :: b in bad.value && RowWorse(b, g)
  }

  predicate ContainerWorse(bad: CgroupSignal, good: CgroupSignal) {
    && (good.limit != 0 ==> bad.limit != 0)
    && bad.usedPct >= good.usedPct && bad.growthRate >= good.growthRate && bad.highEventRate >= good.highEventRate
  }

  ghost predicate EachWorse(bad: seq<CgroupSignal>, good: seq<CgroupSignal>) {
    forall g :: g in good ==> exists b :: b in bad && ContainerWorse(b, g)
  }

  ghost predicate CgroupsWorse(bad: Option<seq<CgroupSignal>>, good: Option<seq<CgroupSignal>>) {
    good.Some? ==> bad.Some? && EachWorse(bad.value, good.value)
  }

  ghost predicate AtLeastAsBad(bad: Signals, good: Signals) {
    && DiskWorse(bad.disk, good.disk) && OomWorse(bad.oom, good.oom) && TcpWorse(bad.tcp, good.tcp)
    && SchedWorse(bad.sched, good.sched) && FdWorse(bad.fd, good.fd) && MemoryWorse(bad.memory, good.memory)
    && SyscallWorse(bad.syscall, good.syscall) && CgroupsWorse(bad.cgroups, good.cgroups)
  }

  // ---- Worse signals raise no fewer alarms ----

  lemma {:induction false} Quotients(x: real, y: real, c: real)
    requires c > 0.0 && x >= y
    ensures x / c >= y / c
  {
  }

  lemma {:induction false} MoreErrors(bad: SyscallRow, good: SyscallRow)
    requires RowWorse(bad, good)
    ensures ErrorPct(bad) >= ErrorPct(good)
  {
    if good.count != 0 {
      Quotients(bad.errorCount as real, good.errorCount as real, good.count as real);
    }
  }

  lemma {:induction false} SyscallsMonotone(bad: Option<seq<SyscallRow>>, good: Option<seq<SyscallRow>>,
                                            t: Thresholds, level: int, pct: real)
    requires SyscallWorse(bad, good)
    ensures SlowCalls(good, t, level) ==> SlowCalls(bad, t, level)
    ensures FailingCalls(good, pct) ==> FailingCalls(bad, pct)
  {
    hide ErrorPct;
    if SlowCalls(good, t, level) {
      var g :| g in good.value && !IsBlockingSyscall(g.nr) && g.latency.p99 >= t.syscallWarning && g.latency.p99 >= level;
      var b :| b in bad.value && RowWorse(b, g);
    }
    if FailingCalls(good, pct) {
      var g :| g in good.value && !IsBlockingSyscall(g.nr) && g.errorCount != 0 && ErrorPct(g) >= pct;
      var b :| b in bad.value && RowWorse(b, g);
      MoreErrors(b, g);
    }
  }

  lemma {:induction false} ContainersMonotone(bad: Option<seq<CgroupSignal>>, good: Option<seq<CgroupSignal>>)
    requires CgroupsWorse(bad, good)
    ensures ContainersCritical(good) ==> ContainersCritical(bad)
    ensures ContainersNoticed(good) ==> ContainersNoticed(bad)
  {
    if ContainersCritical(good) {
      var g :| g in good.value && g.limit != 0 && g.usedPct >= 95.0 && g.growthRate > 0.0;
      var b :| b in bad.value && ContainerWorse(b, g);
    }
    if ContainersNoticed(good) {
      var g :| g in good.value && ((g.limit != 0 && g.usedPct >= 85.0) || g.highEventRate >= 1.0);
      var b :| b in bad.value && ContainerWorse(b, g);
    }
  }

  lemma {:induction false} AlarmsMonotone(bad: Signals, good: Signals, t: Thresholds)
    requires AtLeastAsBad(bad, good) && OomCounted(bad.oom) && OomCounted(good.oom)
    ensures CriticalSignals(good, t) ==> CriticalSignals(bad, t)
    ensures NoticedSignals(good, t) ==> NoticedSignals(bad, t)
  {
    SyscallsMonotone(bad.syscall, good.syscall, t, t.syscallCritical, 10.0);
    SyscallsMonotone(bad.syscall, good.syscall, t, t.syscallWarning, 1.0);
    ContainersMonotone(bad.cgroups, good.cgroups);
    hide SyscallWorse, CgroupsWorse, SlowCalls, FailingCalls, ContainersCritical, ContainersNoticed;
  }

  /** Main result: with the same thresholds, signals that are nowhere better give a
      report whose headline is no milder. */
  lemma {:induction false} EvaluateMonotone(bad: Signals, good: Signals, t: Thresholds)
    requires AtLeastAsBad(bad, good) && OomCounted(bad.oom) && OomCounted(good.oom)
    ensures Report(bad, t) != [] && Report(good, t) != []
    ensures Level(Report(bad, t)[0].severity) >= Level(Report(good, t)[0].severity)
  {
    AlarmsMonotone(bad, good, t);
    HeadlineIff(bad, t);
    HeadlineIff(good, t);
    hide CriticalSignals, NoticedSignals, Report;
  }
}
