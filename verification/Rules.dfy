/** The deterministic rules of the doctor. Severity, rule name, ETA, value, threshold
    and process of each finding are modelled, its texts are not. */
module Rules {
  import opened Options
  import opened SyscallCollector
  import opened FindingsKey
  import opened Findings
  import opened Eta
  import opened Signals
  import opened Sorting

  /** Latency thresholds in nanoseconds. */
  datatype Thresholds = Thresholds(syscallWarning: int, syscallCritical: int, tcpRetransmitPct: real,
                                   oomMemoryPct: real, diskWarning: int, diskCritical: int,
                                   schedWarning: int, schedCritical: int, fdGrowthPerSec: real)

  const RTT_THRESHOLD := 10_000_000
  const MIN_GROWTH_FOR_ETA := 1048576.0

  // ---- Rules that only branch ----

  function DiskIOBottleneck(s: Option<DiskSignal>, t: Thresholds): seq<Finding> {
    if s.None? then []
    else
      var sync, write := s.value.syncP99, s.value.writeP99;
      (if sync > 0 && sync >= t.diskCritical then
         [Finding(Critical, "disk_io_bottleneck", None, sync as real, t.diskCritical as real, "")]
       else if sync > 0 && sync >= t.diskWarning then
         [Finding(Warning, "disk_io_bottleneck", None, sync as real, t.diskWarning as real, "")]
       else [])
      + (if write >= t.diskCritical then
           [Finding(Critical, "disk_io_write_high", None, write as real, t.diskCritical as real, "")]
         else [])
  }

  function TCPRetransmitStorm(s: Option<TcpSignal>, t: Thresholds): seq<Finding> {
    if s.None? || s.value.retransmitRate < t.tcpRetransmitPct then []
    else [Finding(Critical, "tcp_retransmit_storm", None, s.value.retransmitRate, t.tcpRetransmitPct, "")]
  }

  function TCPRTTDegradation(s: Option<TcpSignal>): seq<Finding> {
    if s.None? || s.value.rttP99 < RTT_THRESHOLD then []
    else [Finding(Warning, "tcp_rtt_degradation", None, s.value.rttP99 as real, RTT_THRESHOLD as real, "")]
  }

  function SchedulerContention(s: Option<SchedSignal>, t: Thresholds): seq<Finding> {
    if s.None? || s.value.runqP99 < t.schedWarning then []
    else
      var severity := if s.value.runqP99 >= t.schedCritical then Critical else Warning;
      var process := if s.value.topDelayed == [] then "" else s.value.topDelayed[0];
      [Finding(severity, "scheduler_contention", None, s.value.runqP99 as real, t.schedWarning as real, process)]
  }

  function FDLeak(s: Option<FdSignal>, t: Thresholds): seq<Finding> {
    if s.None? || s.value.growthRate < t.fdGrowthPerSec then []
    else
      var left := 65536.0 - s.value.netDelta as real;
      var eta := if s.value.growthRate > 0.0 && left > 0.0 then EtaDuration(left / s.value.growthRate) else None;
      var process := if s.value.leakers == [] then "" else s.value.leakers[0];
      [Finding(Warning, "fd_leak", eta, s.value.growthRate, t.fdGrowthPerSec, process)]
  }

  /** A negative threshold switches the rule off. */
  function OOMImminent(s: Option<MemorySignal>, t: Thresholds): seq<Finding> {
    if s.None? || t.oomMemoryPct < 0.0 || s.value.usedPct < t.oomMemoryPct then []
    else
      var m := s.value;
      var severity := if m.usedPct > 95.0 && m.growthRate > 0.0 then Critical else Warning;
      var eta := if m.growthRate > 0.0 && m.available > 0 then EtaDuration(m.available as real / m.growthRate) else None;
      [Finding(severity, "oom_imminent", eta, m.usedPct, t.oomMemoryPct, "")]
  }

  const HEALTHY_SYSTEM := Finding(Info, "healthy_system", None, 0.0, 0.0, "")

  // ---- Rules that go through a list ----

  function Victims(comms: seq<string>): seq<Finding> {
    if comms == [] then []
    else Victims(comms[..|comms| - 1]) + [Finding(Critical, "oom_kill_occurred", None, 1.0, 0.0, comms[|comms| - 1])]
  }

  function OOMKillOccurred(s: Option<OomSignal>): seq<Finding> {
    if s.None? || s.value.count == 0 then [] else Victims(s.value.victims)
  }

  method EvalOOMKillOccurred(s: Option<OomSignal>) returns (findings: seq<Finding>)
    ensures findings == OOMKillOccurred(s)
  {
    findings := [];
    if s.None? || s.value.count == 0 {
      return;
    }
    var victims := s.value.victims;
    for i := 0 to |victims|
      invariant findings == Victims(victims[..i])
    {
      findings := findings + [Finding(Critical, "oom_kill_occurred", None, 1.0, 0.0, victims[i])];
      assert victims[..i + 1][..i] == victims[..i];
    }
    assert victims[..|victims|] == victims;
  }

  /** Calls that wait because their caller wants to (amd64 numbers). */
  predicate IsBlockingSyscall(nr: nat) {
    nr in {7, 23, 61, 35, 34, 232, 202, 247, 270, 271, 281, 441, 43, 288}
  }

  predicate IsHot(e: SyscallRow, t: Thresholds) {
    !IsBlockingSyscall(e.nr) && e.latency.p99 >= t.syscallWarning
  }

  /** The entries the latency rule is about, in snapshot order. */
  function Hot(entries: seq<SyscallRow>, t: Thresholds): seq<SyscallRow> {
    if entries == [] then []
    else
      var front, e := Hot(entries[..|entries| - 1], t), entries[|entries| - 1];
      if IsHot(e, t) then front + [e] else front
  }

  ghost predicate AnyCritical(entries: seq<SyscallRow>, t: Thresholds) {
    exists i :: 0 <= i < |entries| && IsHot(entries[i], t) && entries[i].latency.p99 >= t.syscallCritical
  }

  /** One finding at most. Its severity comes from all hot entries, its value and its
      process from the first. */
  ghost function SyscallLatencyHigh(s: Option<seq<SyscallRow>>, t: Thresholds): seq<Finding> {
    if s.None? || Hot(s.value, t) == [] then []
    else
      var top := Hot(s.value, t)[0];
      if AnyCritical(s.value, t) then
        [Finding(Critical, "syscall_latency_high", None, top.latency.p99 as real, t.syscallCritical as real, top.comm)]
      else
        [Finding(Warning, "syscall_latency_high", None, top.latency.p99 as real, t.syscallWarning as real, top.comm)]
  }

  method EvalSyscallLatencyHigh(s: Option<seq<SyscallRow>>, t: Thresholds) returns (findings: seq<Finding>)
    ensures findings == SyscallLatencyHigh(s, t)
  {
    if s.None? {
      return [];
    }
    var hot, severity := [], Warning;
    for i := 0 to |s.value|
      invariant hot == Hot(s.value[..i], t)
      invariant severity == if AnyCritical(s.value[..i], t) then Critical else Warning
    {
      var entry := s.value[i];
      ghost var before, after := s.value[..i], s.value[..i + 1];
      assert after[..i] == before && after[i] == entry;
      CriticalStep(before, entry, t);
      assert after == before + [entry];
      if !IsBlockingSyscall(entry.nr) && entry.latency.p99 >= t.syscallWarning {
        hot := hot + [entry];
        if entry.latency.p99 >= t.syscallCritical {
          severity := Critical;
        }
      }
    }
    assert s.value[..|s.value|] == s.value;
    if |hot| == 0 {
      return [];
    }
    var top := hot[0];
    var thresh := if severity == Critical then t.syscallCritical else t.syscallWarning;
    findings := [Finding(severity, "syscall_latency_high", None, top.latency.p99 as real, thresh as real, top.comm)];
  }

  lemma {:induction false} CriticalStep(before: seq<SyscallRow>, e: SyscallRow, t: Thresholds)
    ensures AnyCritical(before + [e], t) <==>
              AnyCritical(before, t) || (IsHot(e, t) && e.latency.p99 >= t.syscallCritical)
  {
    if AnyCritical(before, t) {
      var i :| 0 <= i < |before| && IsHot(before[i], t) && before[i].latency.p99 >= t.syscallCritical;
      assert (before + [e])[i] == before[i];
    }
    if IsHot(e, t) && e.latency.p99 >= t.syscallCritical {
      assert (before + [e])[|before|] == e;
    }
  }

  /** Percentage of failed calls. */
  function ErrorPct(e: SyscallRow): real {
    if e.count == 0 then 0.0 else e.errorCount as real / e.count as real * 100.0
  }

  predicate Failing(e: SyscallRow) {
    !IsBlockingSyscall(e.nr) && e.count != 0 && e.errorCount != 0 && ErrorPct(e) >= 1.0
  }

  function FailingOf(entries: seq<SyscallRow>): seq<SyscallRow> {
    if entries == [] then []
    else
      var front, e := FailingOf(entries[..|entries| - 1]), entries[|entries| - 1];
      if Failing(e) then front + [e] else front
  }

  /** The first of those that fail most. */
  function Foremost(es: seq<SyscallRow>): SyscallRow
    requires es != []
  {
    if |es| == 1 then es[0]
    else
      var top, e := Foremost(es[..|es| - 1]), es[|es| - 1];
      if ErrorPct(e) > ErrorPct(top) then e else top
  }

  /** One finding at most, about the entry that fails most. */
  function SyscallErrorRate(s: Option<seq<SyscallRow>>): seq<Finding> {
    if s.None? || FailingOf(s.value) == [] then []
    else
      var top := Foremost(FailingOf(s.value));
      [Finding(if ErrorPct(top) >= 10.0 then Critical else Warning, "syscall_error_rate", None, ErrorPct(top), 1.0, top.comm)]
  }

  /** The source decides the severity while it collects, before it knows the top. */
  method EvalSyscallErrorRate(s: Option<seq<SyscallRow>>) returns (findings: seq<Finding>)
    ensures findings == SyscallErrorRate(s)
  {
    hide ErrorPct;
    if s.None? {
      return [];
    }
    var entries, severity := [], Warning;
    for i := 0 to |s.value|
      invariant entries == FailingOf(s.value[..i])
      invariant severity == (if exists e :: e in entries && ErrorPct(e) >= 10.0 then Critical else Warning)
    {
      var entry := s.value[i];
      assert s.value[..i + 1][..i] == s.value[..i];
      if Failing(entry) {
        ghost var before := entries;
        entries := entries + [entry];
        assert forall e :: e in entries <==> e in before || e == entry;
        if ErrorPct(entry) >= 10.0 {
          severity := Critical;
        }
      }
    }
    assert s.value[..|s.value|] == s.value;
    if |entries| == 0 {
      return [];
    }
    var top := entries[0];
    for i := 1 to |entries|
      invariant top == Foremost(entries[..i])
    {
      assert entries[..i + 1][..i] == entries[..i];
      if ErrorPct(entries[i]) > ErrorPct(top) {
        top := entries[i];
      }
    }
    assert entries[..|entries|] == entries;
    ForemostIsMaximum(entries);
    findings := [Finding(severity, "syscall_error_rate", None, ErrorPct(top), 1.0, top.comm)];
  }

  lemma {:induction false} ForemostIsMaximum(es: seq<SyscallRow>)
    requires es != []
    ensures Foremost(es) in es
    ensures forall e :: e in es ==> ErrorPct(e) <= ErrorPct(Foremost(es))
  {
    hide ErrorPct;
    if |es| > 1 {
      ForemostIsMaximum(es[..|es| - 1]);
      assert es == es[..|es| - 1] + [es[|es| - 1]];
    }
  }

  /** A container close to its limit. The ETA needs growth of at least 1 MiB/s. */
  function Pressure(c: CgroupSignal): seq<Finding> {
    if c.limit == 0 || c.usedPct < 85.0 then []
    else if c.usedPct >= 95.0 && c.growthRate > 0.0 then
      var eta := if c.growthRate >= MIN_GROWTH_FOR_ETA && c.limit > c.current
                 then EtaDuration((c.limit - c.current) as real / c.growthRate) else None;
      [Finding(Critical, "memory_limit_pressure", eta, c.usedPct, 95.0, c.pod)]
    else [Finding(Warning, "memory_limit_pressure", None, c.usedPct, 85.0, c.pod)]
  }

  function Throttling(c: CgroupSignal): seq<Finding> {
    if c.highEventRate < 1.0 then []
    else [Finding(Warning, "memory_high_throttling", None, c.highEventRate, 1.0, c.pod)]
  }

  /** What a rule finds in each container, in order. */
  function PerContainer(cs: seq<CgroupSignal>, rule: CgroupSignal -> seq<Finding>): seq<Finding> {
    if cs == [] then [] else PerContainer(cs[..|cs| - 1], rule) + rule(cs[|cs| - 1])
  }

  function MemoryLimitPressure(s: Option<seq<CgroupSignal>>): seq<Finding> {
    if s.None? then [] else PerContainer(s.value, Pressure)
  }

  function MemoryHighThrottling(s: Option<seq<CgroupSignal>>): seq<Finding> {
    if s.None? then [] else PerContainer(s.value, Throttling)
  }

  method EvalMemoryLimitPressure(s: Option<seq<CgroupSignal>>) returns (findings: seq<Finding>)
    ensures findings == MemoryLimitPressure(s)
  {
    findings := [];
    if s.None? {
      return;
    }
    for i := 0 to |s.value|
      invariant findings == PerContainer(s.value[..i], Pressure)
    {
      var c := s.value[i];
      assert s.value[..i + 1][..i] == s.value[..i];
      if c.limit == 0 || c.usedPct < 85.0 {
        continue;
      }
      var severity, threshold, eta := Warning, 85.0, None;
      if c.usedPct >= 95.0 && c.growthRate > 0.0 {
        severity, threshold := Critical, 95.0;
      }
      if severity == Critical {
        if c.growthRate >= MIN_GROWTH_FOR_ETA && c.limit > c.current {
          var remaining := c.limit - c.current;
          eta := EtaDuration(remaining as real / c.growthRate);
        }
      }
      findings := findings + [Finding(severity, "memory_limit_pressure", eta, c.usedPct, threshold, c.pod)];
    }
    assert s.value[..|s.value|] == s.value;
  }

  method EvalMemoryHighThrottling(s: Option<seq<CgroupSignal>>) returns (findings: seq<Finding>)
    ensures findings == MemoryHighThrottling(s)
  {
    findings := [];
    if s.None? {
      return;
    }
    for i := 0 to |s.value|
      invariant findings == PerContainer(s.value[..i], Throttling)
    {
      var c := s.value[i];
      assert s.value[..i + 1][..i] == s.value[..i];
      if c.highEventRate < 1.0 {
        continue;
      }
      findings := findings + [Finding(Warning, "memory_high_throttling", None, c.highEventRate, 1.0, c.pod)];
    }
    assert s.value[..|s.value|] == s.value;
  }

  // ---- All rules ----

  /** What the rules find, in the order in which they run. */
  ghost function Found(s: Signals, t: Thresholds): seq<Finding> {
    DiskIOBottleneck(s.disk, t) + OOMKillOccurred(s.oom)
    + TCPRetransmitStorm(s.tcp, t) + TCPRTTDegradation(s.tcp)
    + SchedulerContention(s.sched, t) + FDLeak(s.fd, t)
    + SyscallLatencyHigh(s.syscall, t) + OOMImminent(s.memory, t)
    + SyscallErrorRate(s.syscall)
    + MemoryLimitPressure(s.cgroups) + MemoryHighThrottling(s.cgroups)
  }

  ghost function OrHealthy(found: seq<Finding>): seq<Finding> {
    if found == [] then [HEALTHY_SYSTEM] else found
  }

  ghost function Report(s: Signals, t: Thresholds): seq<Finding> {
    StableSort(OrHealthy(Found(s, t)), Outranks)
  }

  method Evaluate(signals: Signals, thresholds: Thresholds) returns (report: seq<Finding>)
    ensures report == Report(signals, thresholds)
  {
    hide DiskIOBottleneck, OOMKillOccurred, TCPRetransmitStorm, TCPRTTDegradation, SchedulerContention, FDLeak,
      SyscallLatencyHigh, OOMImminent, SyscallErrorRate, MemoryLimitPressure, MemoryHighThrottling, Outranks, StableSort;
    var findings := DiskIOBottleneck(signals.disk, thresholds);
    var victims := EvalOOMKillOccurred(signals.oom);
    findings := findings + victims;
    findings := findings + TCPRetransmitStorm(signals.tcp, thresholds);
    findings := findings + TCPRTTDegradation(signals.tcp);
    findings := findings + SchedulerContention(signals.sched, thresholds);
    findings := findings + FDLeak(signals.fd, thresholds);
    var latency := EvalSyscallLatencyHigh(signals.syscall, thresholds);
    findings := findings + latency;
    findings := findings + OOMImminent(signals.memory, thresholds);
    var errors := EvalSyscallErrorRate(signals.syscall);
    findings := findings + errors;
    var pressure := EvalMemoryLimitPressure(signals.cgroups);
    findings := findings + pressure;
    var throttling := EvalMemoryHighThrottling(signals.cgroups);
    findings := findings + throttling;
    if |findings| == 0 {
      findings := findings + [HEALTHY_SYSTEM];
    }
    assert findings == OrHealthy(Found(signals, thresholds));
    var ranked := new Finding[|findings|](i requires 0 <= i < |findings| => findings[i]);
    assert ranked[..] == findings;
    RankFindings(ranked);
    report := ranked[..];
  }
}
