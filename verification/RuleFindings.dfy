/** Which findings a report holds, stated on the signals alone, with every constant of
    the rules written out. */
module RuleFindings {
  import opened Options
  import opened SyscallCollector
  import opened FindingsKey
  import opened Findings
  import opened Eta
  import opened Signals
  import opened Sorting
  import opened Rules
  import opened RuleProperties
  import opened RuleLevels

  // ---- What each rule says ----

  predicate Says(f: Finding, rule: string, severity: Severity, value: real, threshold: real, process: string) {
    f.rule == rule && f.severity == severity && f.value == value && f.threshold == threshold && f.process == process
  }

  function FirstOf(names: seq<string>): string {
    if names == [] then "" else names[0]
  }

  predicate SlowSyncs(f: Finding, d: DiskSignal, t: Thresholds) {
    && f.eta.None? && d.syncP99 > 0
    && (|| (d.syncP99 >= t.diskCritical
            && Says(f, "disk_io_bottleneck", Critical, d.syncP99 as real, t.diskCritical as real, ""))
        || (t.diskWarning <= d.syncP99 < t.diskCritical
            && Says(f, "disk_io_bottleneck", Warning, d.syncP99 as real, t.diskWarning as real, "")))
  }

  predicate SlowWrites(f: Finding, d: DiskSignal, t: Thresholds) {
    && f.eta.None? && d.writeP99 >= t.diskCritical
    && Says(f, "disk_io_write_high", Critical, d.writeP99 as real, t.diskCritical as real, "")
  }

  predicate VictimKilled(f: Finding, o: OomSignal) {
    o.count != 0 && f.eta.None? && f.process in o.victims && Says(f, "oom_kill_occurred", Critical, 1.0, 0.0, f.process)
  }

  predicate RetransmitStorm(f: Finding, c: TcpSignal, t: Thresholds) {
    && f.eta.None? && c.retransmitRate >= t.tcpRetransmitPct
    && Says(f, "tcp_retransmit_storm", Critical, c.retransmitRate, t.tcpRetransmitPct, "")
  }

  /** 10 ms. */
  predicate SlowPath(f: Finding, c: TcpSignal) {
    && f.eta.None? && c.rttP99 >= 10_000_000
    && Says(f, "tcp_rtt_degradation", Warning, c.rttP99 as real, 10_000_000.0, "")
  }

  predicate Contention(f: Finding, c: SchedSignal, t: Thresholds) {
    && f.eta.None? && c.runqP99 >= t.schedWarning
    && Says(f, "scheduler_contention", if c.runqP99 < t.schedCritical then Warning else Critical,
            c.runqP99 as real, t.schedWarning as real, FirstOf(c.topDelayed))
  }

  /** The ETA is when the descriptors left of 65536 are gone. */
  ghost predicate Leak(f: Finding, d: FdSignal, t: Thresholds) {
    && d.growthRate >= t.fdGrowthPerSec
    && Says(f, "fd_leak", Warning, d.growthRate, t.fdGrowthPerSec, FirstOf(d.leakers))
    && EtaOf(f.eta, 65536.0 - d.netDelta as real, d.growthRate)
  }

  /** The ETA is when the available memory is gone. */
  ghost predicate MemoryShort(f: Finding, m: MemorySignal, t: Thresholds) {
    && 0.0 <= t.oomMemoryPct <= m.usedPct
    && Says(f, "oom_imminent", if m.usedPct > 95.0 && m.growthRate > 0.0 then Critical else Warning,
            m.usedPct, t.oomMemoryPct, "")
    && EtaOf(f.eta, m.available as real, m.growthRate)
  }

  /** poll, select, wait4, nanosleep, pause, epoll_wait, futex, waitid, pselect6, ppoll,
      epoll_pwait, epoll_pwait2, accept and accept4 wait by design. */
  predicate Judged(e: SyscallRow) {
    e.nr !in {7, 23, 61, 35, 34, 232, 202, 247, 270, 271, 281, 441, 43, 288}
  }

  predicate Slow(e: SyscallRow, level: int) {
    Judged(e) && e.latency.p99 >= level
  }

  /** The first slow row is the one named, and any slow row makes it critical. */
  ghost predicate SlowCall(f: Finding, rows: seq<SyscallRow>, t: Thresholds) {
    && f.eta.None?
    && exists k :: 0 <= k < |rows| && FirstSlow(rows, k, t)
         && var critical := exists e :: e in rows && Slow(e, t.syscallWarning) && Slow(e, t.syscallCritical);
            Says(f, "syscall_latency_high", if critical then Critical else Warning, rows[k].latency.p99 as real,
                 (if critical then t.syscallCritical else t.syscallWarning) as real, rows[k].comm)
  }

  ghost predicate FirstSlow(rows: seq<SyscallRow>, k: nat, t: Thresholds) {
    k < |rows| && Slow(rows[k], t.syscallWarning) && forall j :: 0 <= j < k ==> !Slow(rows[j], t.syscallWarning)
  }

  /** At least one call in a hundred fails. */
  predicate Fails(e: SyscallRow) {
    Judged(e) && e.errorCount > 0 && e.count > 0 && 100 * e.errorCount >= e.count
  }

  /** The failed calls of a per call of b: what is compared with the other way round. */
  function Share(a: SyscallRow, b: SyscallRow): nat {
    a.errorCount * b.count
  }

  /** The first of the rows that fail most. */
  ghost predicate FailsMost(rows: seq<SyscallRow>, k: nat) {
    && k < |rows| && Fails(rows[k])
    && (forall j :: k < j < |rows| && Fails(rows[j]) ==> Share(rows[j], rows[k]) <= Share(rows[k], rows[j]))
    && (forall j :: 0 <= j < k && Fails(rows[j]) ==> Share(rows[j], rows[k]) < Share(rows[k], rows[j]))
  }

  predicate IsPercentage(value: real, part: nat, whole: nat) {
    value * whole as real == 100.0 * part as real
  }

  /** Critical from one failed call in ten on. */
  ghost predicate FailingCall(f: Finding, rows: seq<SyscallRow>) {
    && f.eta.None?
    && exists k :: 0 <= k < |rows| && FailsMost(rows, k)
         && IsPercentage(f.value, rows[k].errorCount, rows[k].count)
         && Says(f, "syscall_error_rate", if 10 * rows[k].errorCount >= rows[k].count then Critical else Warning,
                 f.value, 1.0, rows[k].comm)
  }

  /** The ETA is when the container's limit is reached, if its memory grows by at least
      1 MiB/s. */
  ghost predicate UnderPressure(f: Finding, c: CgroupSignal) {
    && c.limit > 0
    && (|| (c.usedPct >= 95.0 && c.growthRate > 0.0
            && Says(f, "memory_limit_pressure", Critical, c.usedPct, 95.0, c.pod)
            && (if c.growthRate >= 1_048_576.0 then EtaOf(f.eta, (c.limit - c.current) as real, c.growthRate) else f.eta.None?))
        || (c.usedPct >= 85.0 && (c.usedPct < 95.0 || c.growthRate <= 0.0)
            && Says(f, "memory_limit_pressure", Warning, c.usedPct, 85.0, c.pod) && f.eta.None?))
  }

  predicate Throttled(f: Finding, c: CgroupSignal) {
    && f.eta.None? && c.highEventRate >= 1.0
    && Says(f, "memory_high_throttling", Warning, c.highEventRate, 1.0, c.pod)
  }

  ghost predicate Warranted(f: Finding, s: Signals, t: Thresholds) {
    || (s.disk.Some? && (SlowSyncs(f, s.disk.value, t) || SlowWrites(f, s.disk.value, t)))
    || (s.oom.Some? && VictimKilled(f, s.oom.value))
    || (s.tcp.Some? && (RetransmitStorm(f, s.tcp.value, t) || SlowPath(f, s.tcp.value)))
    || (s.sched.Some? && Contention(f, s.sched.value, t))
    || (s.fd.Some? && Leak(f, s.fd.value, t))
    || (s.memory.Some? && MemoryShort(f, s.memory.value, t))
    || (s.syscall.Some? && (SlowCall(f, s.syscall.value, t) || FailingCall(f, s.syscall.value)))
    || (s.cgroups.Some? && exists c :: c in s.cgroups.value && (UnderPressure(f, c) || Throttled(f, c)))
  }

  // ---- Rule by rule ----

  lemma {:induction false} BranchingSay(s: Signals, t: Thresholds, f: Finding)
    ensures f in DiskIOBottleneck(s.disk, t) <==>
              s.disk.Some? && (SlowSyncs(f, s.disk.value, t) || SlowWrites(f, s.disk.value, t))
    ensures f in TCPRetransmitStorm(s.tcp, t) + TCPRTTDegradation(s.tcp) <==>
              s.tcp.Some? && (RetransmitStorm(f, s.tcp.value, t) || SlowPath(f, s.tcp.value))
    ensures f in SchedulerContention(s.sched, t) <==> s.sched.Some? && Contention(f, s.sched.value, t)
  {
  }

  lemma {:induction false} EtaUnique(a: Option<int>, b: Option<int>, left: real, rate: real)
    requires EtaOf(a, left, rate) && EtaOf(b, left, rate)
    ensures a == b
  {
    hide GoneIn;
    if a.Some? {
      assert GoneIn(a.value, left, rate);
    }
    if b.Some? {
      assert GoneIn(b.value, left, rate);
    }
  }

  /** Whoever shares the ETA's condition shares the ETA. */
  lemma {:induction false} SameEta(eta: Option<int>, left: real, rate: real)
    ensures EtaOf(eta, left, rate) <==> eta == if rate > 0.0 && left > 0.0 then EtaDuration(left / rate) else None
  {
    EtaIff(left, rate);
    var own := if rate > 0.0 && left > 0.0 then EtaDuration(left / rate) else None;
    hide EtaOf, EtaDuration;
    if EtaOf(eta, left, rate) {
      EtaUnique(eta, own, left, rate);
    }
  }

  lemma {:induction false} LeakSays(s: Option<FdSignal>, t: Thresholds, f: Finding)
    ensures f in FDLeak(s, t) <==> s.Some? && Leak(f, s.value, t)
  {
    hide EtaOf, EtaDuration;
    if s.Some? {
      SameEta(f.eta, 65536.0 - s.value.netDelta as real, s.value.growthRate);
    }
  }

  lemma {:induction false} MemorySays(s: Option<MemorySignal>, t: Thresholds, f: Finding)
    ensures f in OOMImminent(s, t) <==> s.Some? && MemoryShort(f, s.value, t)
  {
    hide EtaOf, EtaDuration;
    if s.Some? {
      SameEta(f.eta, s.value.available as real, s.value.growthRate);
    }
  }

  lemma {:induction false} ContainerSays(c: CgroupSignal, f: Finding)
    ensures f in Pressure(c) <==> UnderPressure(f, c)
    ensures f in Throttling(c) <==> Throttled(f, c)
  {
    hide EtaOf, EtaDuration;
    SameEta(f.eta, (c.limit - c.current) as real, c.growthRate);
  }

  lemma {:induction false} ContainersSay(s: Option<seq<CgroupSignal>>, f: Finding)
    ensures f in MemoryLimitPressure(s) + MemoryHighThrottling(s) <==>
              s.Some? && exists c :: c in s.value && (UnderPressure(f, c) || Throttled(f, c))
  {
    hide Pressure, Throttling, UnderPressure, Throttled;
    if s.Some? {
      ContainerShape(s.value, Pressure, f);
      ContainerShape(s.value, Throttling, f);
      forall c | c in s.value
        ensures f in Pressure(c) <==> UnderPressure(f, c)
        ensures f in Throttling(c) <==> Throttled(f, c)
      {
        ContainerSays(c, f);
      }
    }
  }

  lemma {:induction false} VictimsSay(comms: seq<string>, f: Finding)
    ensures f in Victims(comms) <==>
              f.eta.None? && f.process in comms && Says(f, "oom_kill_occurred", Critical, 1.0, 0.0, f.process)
  {
    if comms != [] {
      VictimsSay(comms[..|comms| - 1], f);
      assert comms == comms[..|comms| - 1] + [comms[|comms| - 1]];
    }
  }

  lemma {:induction false} OomSays(s: Option<OomSignal>, f: Finding)
    ensures f in OOMKillOccurred(s) <==> s.Some? && VictimKilled(f, s.value)
  {
    if s.Some? {
      VictimsSay(s.value.victims, f);
    }
  }

  lemma {:induction false} HotFirst(rows: seq<SyscallRow>, t: Thresholds) returns (k: nat)
    requires Hot(rows, t) != []
    ensures FirstSlow(rows, k, t) && rows[k] == Hot(rows, t)[0]
  {
    var front := rows[..|rows| - 1];
    if Hot(front, t) == [] {
      HotMembers(front, t);
      k := |front|;
      forall j | 0 <= j < k
        ensures !Slow(rows[j], t.syscallWarning)
      {
        assert rows[j] in front;
      }
    } else {
      k := HotFirst(front, t);
    }
  }

  lemma {:induction false} LatencySays(s: Option<seq<SyscallRow>>, t: Thresholds, f: Finding)
    ensures f in SyscallLatencyHigh(s, t) <==> s.Some? && SlowCall(f, s.value, t)
  {
    if s.Some? {
      var rows := s.value;
      HotMembers(rows, t);
      CriticalRows(rows, t);
      assert AnyCritical(rows, t) <==> exists e :: e in rows && Slow(e, t.syscallWarning) && Slow(e, t.syscallCritical);
      hide AnyCritical, SlowCalls, Says;
      if Hot(rows, t) == [] {
        assert forall k :: 0 <= k < |rows| ==> rows[k] in rows;
      } else {
        var k := HotFirst(rows, t);
        assert forall j :: 0 <= j < |rows| && FirstSlow(rows, j, t) ==> j == k;
      }
    }
  }

  lemma {:induction false} PctOf(e: SyscallRow, level: nat)
    requires e.count > 0
    ensures IsPercentage(ErrorPct(e), e.errorCount, e.count)
    ensures ErrorPct(e) >= level as real <==> 100 * e.errorCount >= level * e.count
  {
    var rate, n := e.errorCount as real / e.count as real, e.count as real;
    assert rate * n == e.errorCount as real;
    assert ErrorPct(e) == rate * 100.0;
    hide ErrorPct;
    Cancelled(level as real, ErrorPct(e), n);
    assert level as real * n == (level * e.count) as real;
  }

  lemma {:induction false} CompareShares(a: SyscallRow, b: SyscallRow)
    requires a.count > 0 && b.count > 0
    ensures ErrorPct(a) <= ErrorPct(b) <==> Share(a, b) <= Share(b, a)
  {
    PctOf(a, 0);
    PctOf(b, 0);
    Crossed(ErrorPct(a), ErrorPct(b), a.count as real, b.count as real, a.errorCount as real, b.errorCount as real);
  }

  lemma {:induction false} Crossed(p: real, q: real, m: real, n: real, x: real, y: real)
    requires m > 0.0 && n > 0.0 && p * m == 100.0 * x && q * n == 100.0 * y
    ensures p <= q <==> x * n <= y * m
  {
    Cancelled(p, q, m * n);
    assert p * (m * n) == 100.0 * x * n && q * (m * n) == 100.0 * y * m;
  }

  lemma {:induction false} FailingIsFails(e: SyscallRow)
    ensures Failing(e) <==> Fails(e)
  {
    if e.count > 0 {
      PctOf(e, 1);
    }
    hide ErrorPct;
  }

  lemma {:induction false} ForemostFirst(rows: seq<SyscallRow>) returns (k: nat)
    requires FailingOf(rows) != []
    ensures k < |rows| && Failing(rows[k]) && rows[k] == Foremost(FailingOf(rows))
    ensures forall j :: k < j < |rows| && Failing(rows[j]) ==> ErrorPct(rows[j]) <= ErrorPct(rows[k])
    ensures forall j :: 0 <= j < k && Failing(rows[j]) ==> ErrorPct(rows[j]) < ErrorPct(rows[k])
  {
    hide Failing, ErrorPct;
    var front, e := rows[..|rows| - 1], rows[|rows| - 1];
    if FailingOf(front) == [] {
      FailingMembers(front);
      k := |front|;
      assert forall j :: 0 <= j < k ==> rows[j] in front;
    } else {
      k := ForemostFirst(front);
      if Failing(e) {
        assert FailingOf(rows)[..|FailingOf(rows)| - 1] == FailingOf(front);
        if ErrorPct(e) > ErrorPct(rows[k]) {
          k := |front|;
        }
      }
    }
  }

  lemma {:induction false} MostIsForemost(rows: seq<SyscallRow>) returns (k: nat)
    requires FailingOf(rows) != []
    ensures FailsMost(rows, k) && rows[k] == Foremost(FailingOf(rows))
  {
    k := ForemostFirst(rows);
    hide Failing, ErrorPct, Share, Foremost, FailingOf;
    forall j | 0 <= j < |rows|
      ensures Failing(rows[j]) <==> Fails(rows[j])
      ensures Fails(rows[j]) && Fails(rows[k]) ==> (ErrorPct(rows[j]) <= ErrorPct(rows[k]) <==> Share(rows[j], rows[k]) <= Share(rows[k], rows[j]))
      ensures Fails(rows[j]) && Fails(rows[k]) ==> (ErrorPct(rows[k]) <= ErrorPct(rows[j]) <==> Share(rows[k], rows[j]) <= Share(rows[j], rows[k]))
    {
      FailingIsFails(rows[j]);
      FailingIsFails(rows[k]);
      if Fails(rows[j]) && Fails(rows[k]) {
        CompareShares(rows[j], rows[k]);
        CompareShares(rows[k], rows[j]);
      }
    }
  }

  lemma {:induction false} MostUnique(rows: seq<SyscallRow>, j: nat, k: nat)
    requires FailsMost(rows, j) && FailsMost(rows, k)
    ensures j == k
  {
    hide Share, Fails;
  }

  lemma {:induction false} ErrorsSay(s: Option<seq<SyscallRow>>, f: Finding)
    ensures f in SyscallErrorRate(s) <==> s.Some? && FailingCall(f, s.value)
  {
    if s.Some? {
      var rows := s.value;
      if FailingOf(rows) == [] {
        NoneFails(rows);
      } else {
        var k := MostIsForemost(rows);
        RateSays(f, rows[k]);
        OnlyCall(f, rows, k);
        hide ErrorPct, FailsMost, FailingCall, FailingOf, Foremost, IsPercentage;
      }
    }
  }

  lemma {:induction false} OnlyCall(f: Finding, rows: seq<SyscallRow>, k: nat)
    requires FailsMost(rows, k)
    ensures FailingCall(f, rows) <==>
              && f.eta.None? && IsPercentage(f.value, rows[k].errorCount, rows[k].count)
              && Says(f, "syscall_error_rate", if 10 * rows[k].errorCount >= rows[k].count then Critical else Warning,
                      f.value, 1.0, rows[k].comm)
  {
    forall j: nat | FailsMost(rows, j)
      ensures j == k
    {
      MostUnique(rows, j, k);
    }
    hide FailsMost, IsPercentage, Says;
  }

  lemma {:induction false} NoneFails(rows: seq<SyscallRow>)
    requires FailingOf(rows) == []
    ensures forall k: nat :: !FailsMost(rows, k)
  {
    FailingMembers(rows);
    hide Fails, Failing;
    forall k | 0 <= k < |rows|
      ensures !Fails(rows[k])
    {
      assert rows[k] in rows;
      FailingIsFails(rows[k]);
    }
  }

  /** A finding that gives a row's percentage gives what it calculates. */
  lemma {:induction false} RateSays(f: Finding, e: SyscallRow)
    requires Fails(e)
    ensures IsPercentage(f.value, e.errorCount, e.count) <==> f.value == ErrorPct(e)
    ensures 10 * e.errorCount >= e.count <==> ErrorPct(e) >= 10.0
  {
    PctOf(e, 10);
    hide ErrorPct;
    Cancelled(f.value, ErrorPct(e), e.count as real);
    Cancelled(ErrorPct(e), f.value, e.count as real);
  }

  // ---- All rules ----

  lemma {:induction false} InFound(s: Signals, t: Thresholds, f: Finding)
    ensures f in Found(s, t) <==>
              || f in DiskIOBottleneck(s.disk, t) || f in OOMKillOccurred(s.oom)
              || f in TCPRetransmitStorm(s.tcp, t) + TCPRTTDegradation(s.tcp)
              || f in SchedulerContention(s.sched, t) || f in FDLeak(s.fd, t)
              || f in SyscallLatencyHigh(s.syscall, t) || f in OOMImminent(s.memory, t)
              || f in SyscallErrorRate(s.syscall)
              || f in MemoryLimitPressure(s.cgroups) + MemoryHighThrottling(s.cgroups)
  {
    hide DiskIOBottleneck, OOMKillOccurred, TCPRetransmitStorm, TCPRTTDegradation, SchedulerContention, FDLeak,
      SyscallLatencyHigh, OOMImminent, SyscallErrorRate, MemoryLimitPressure, MemoryHighThrottling;
  }

  lemma {:induction false} FoundIff(s: Signals, t: Thresholds, f: Finding)
    ensures f in Found(s, t) <==> Warranted(f, s, t)
  {
    InFound(s, t, f);
    BranchingSay(s, t, f);
    LeakSays(s.fd, t, f);
    MemorySays(s.memory, t, f);
    OomSays(s.oom, f);
    LatencySays(s.syscall, t, f);
    ErrorsSay(s.syscall, f);
    ContainersSay(s.cgroups, f);
    hide Found, DiskIOBottleneck, OOMKillOccurred, TCPRetransmitStorm, TCPRTTDegradation, SchedulerContention, FDLeak,
      SyscallLatencyHigh, OOMImminent, SyscallErrorRate, MemoryLimitPressure, MemoryHighThrottling,
      SlowSyncs, SlowWrites, VictimKilled, RetransmitStorm, SlowPath, Contention, Leak, MemoryShort, SlowCall, FailingCall,
      UnderPressure, Throttled;
  }

  /** Main result: a report holds exactly the findings that the signals warrant, each
      with the severity, value, threshold, ETA and process they give it; or, if no
      signal is noticed, only that the system is healthy. */
  lemma {:induction false} ReportIff(s: Signals, t: Thresholds, f: Finding)
    ensures f in Report(s, t) <==>
              || Warranted(f, s, t)
              || (!NoticedSignals(s, t) && f == Finding(Info, "healthy_system", None, 0.0, 0.0, ""))
  {
    SameMembers(s, t, f);
    FoundIff(s, t, f);
    HeadlineIff(s, t);
    HealthyExactlyWhenAlone(s, t);
    hide Found, Report, Warranted, NoticedSignals;
  }

  // ---- How many ----

  function One(b: bool): nat {
    if b then 1 else 0
  }

  function PressedCount(cs: seq<CgroupSignal>): nat {
    if cs == [] then 0
    else PressedCount(cs[1..]) + One(cs[0].limit > 0 && cs[0].usedPct >= 85.0)
  }

  function ThrottledCount(cs: seq<CgroupSignal>): nat {
    if cs == [] then 0 else ThrottledCount(cs[1..]) + One(cs[0].highEventRate >= 1.0)
  }

  ghost predicate AnySlow(s: Option<seq<SyscallRow>>, t: Thresholds) {
    s.Some? && exists e :: e in s.value && Slow(e, t.syscallWarning)
  }

  ghost predicate AnyFails(s: Option<seq<SyscallRow>>) {
    s.Some? && exists e :: e in s.value && Fails(e)
  }

  /** One finding for each rule that is met, except that memory findings come one for
      each victim and container. */
  ghost function Expected(s: Signals, t: Thresholds): nat {
    One(s.disk.Some? && s.disk.value.syncP99 > 0 && (s.disk.value.syncP99 >= t.diskWarning || s.disk.value.syncP99 >= t.diskCritical))
    + One(s.disk.Some? && s.disk.value.writeP99 >= t.diskCritical)
    + (if s.oom.Some? && s.oom.value.count != 0 then |s.oom.value.victims| else 0)
    + One(s.tcp.Some? && s.tcp.value.retransmitRate >= t.tcpRetransmitPct)
    + One(s.tcp.Some? && s.tcp.value.rttP99 >= 10_000_000)
    + One(s.sched.Some? && s.sched.value.runqP99 >= t.schedWarning)
    + One(s.fd.Some? && s.fd.value.growthRate >= t.fdGrowthPerSec)
    + One(s.memory.Some? && 0.0 <= t.oomMemoryPct <= s.memory.value.usedPct)
    + One(AnySlow(s.syscall, t)) + One(AnyFails(s.syscall))
    + (if s.cgroups.Some? then PressedCount(s.cgroups.value) + ThrottledCount(s.cgroups.value) else 0)
  }

  lemma {:induction false} PerContainerConcat(a: seq<CgroupSignal>, b: seq<CgroupSignal>, rule: CgroupSignal -> seq<Finding>)
    ensures PerContainer(a + b, rule) == PerContainer(a, rule) + PerContainer(b, rule)
  {
    if b == [] {
      assert a + b == a;
    } else {
      assert (a + b)[..|a + b| - 1] == a + b[..|b| - 1];
      PerContainerConcat(a, b[..|b| - 1], rule);
    }
  }

  lemma {:induction false} ContainersCounted(cs: seq<CgroupSignal>)
    ensures |PerContainer(cs, Pressure)| == PressedCount(cs)
    ensures |PerContainer(cs, Throttling)| == ThrottledCount(cs)
  {
    hide EtaDuration;
    if cs != [] {
      ContainersCounted(cs[1..]);
      assert cs == [cs[0]] + cs[1..];
      PerContainerConcat([cs[0]], cs[1..], Pressure);
      PerContainerConcat([cs[0]], cs[1..], Throttling);
      assert [cs[0]][..0] == [];
    }
  }

  lemma {:induction false} SyscallsCounted(s: Option<seq<SyscallRow>>, t: Thresholds)
    ensures |SyscallLatencyHigh(s, t)| == One(AnySlow(s, t))
    ensures |SyscallErrorRate(s)| == One(AnyFails(s))
  {
    if s.Some? {
      HotMembers(s.value, t);
      FailingMembers(s.value);
      forall e | e in s.value
        ensures Failing(e) <==> Fails(e)
      {
        FailingIsFails(e);
      }
      hide Failing, Fails, ErrorPct, AnyCritical;
      if Hot(s.value, t) != [] {
        assert Hot(s.value, t)[0] in Hot(s.value, t);
      } else {
        assert forall e :: e in s.value ==> !IsHot(e, t);
      }
      if FailingOf(s.value) != [] {
        assert FailingOf(s.value)[0] in FailingOf(s.value);
      } else {
        assert forall e :: e in s.value ==> !Failing(e);
      }
    }
  }

  lemma {:induction false} BranchingCounted(s: Signals, t: Thresholds)
    ensures |DiskIOBottleneck(s.disk, t)| ==
              One(s.disk.Some? && s.disk.value.syncP99 > 0 && (s.disk.value.syncP99 >= t.diskWarning || s.disk.value.syncP99 >= t.diskCritical))
              + One(s.disk.Some? && s.disk.value.writeP99 >= t.diskCritical)
    ensures |TCPRetransmitStorm(s.tcp, t)| == One(s.tcp.Some? && s.tcp.value.retransmitRate >= t.tcpRetransmitPct)
    ensures |TCPRTTDegradation(s.tcp)| == One(s.tcp.Some? && s.tcp.value.rttP99 >= 10_000_000)
    ensures |SchedulerContention(s.sched, t)| == One(s.sched.Some? && s.sched.value.runqP99 >= t.schedWarning)
    ensures |FDLeak(s.fd, t)| == One(s.fd.Some? && s.fd.value.growthRate >= t.fdGrowthPerSec)
    ensures |OOMImminent(s.memory, t)| == One(s.memory.Some? && 0.0 <= t.oomMemoryPct <= s.memory.value.usedPct)
  {
    hide EtaDuration;
  }

  lemma {:induction false} ListsCounted(s: Signals)
    ensures |OOMKillOccurred(s.oom)| == if s.oom.Some? && s.oom.value.count != 0 then |s.oom.value.victims| else 0
    ensures |MemoryLimitPressure(s.cgroups)| + |MemoryHighThrottling(s.cgroups)|
         == if s.cgroups.Some? then PressedCount(s.cgroups.value) + ThrottledCount(s.cgroups.value) else 0
  {
    if s.cgroups.Some? {
      ContainersCounted(s.cgroups.value);
    }
    if s.oom.Some? {
      VictimShape(s.oom.value.victims);
    }
    hide PerContainer, Victims;
  }

  lemma {:induction false} FoundLength(s: Signals, t: Thresholds)
    ensures |Found(s, t)|
         == |DiskIOBottleneck(s.disk, t)| + |OOMKillOccurred(s.oom)| + |TCPRetransmitStorm(s.tcp, t)| + |TCPRTTDegradation(s.tcp)|
            + |SchedulerContention(s.sched, t)| + |FDLeak(s.fd, t)| + |SyscallLatencyHigh(s.syscall, t)| + |OOMImminent(s.memory, t)|
            + |SyscallErrorRate(s.syscall)| + |MemoryLimitPressure(s.cgroups)| + |MemoryHighThrottling(s.cgroups)|
  {
    hide DiskIOBottleneck, OOMKillOccurred, TCPRetransmitStorm, TCPRTTDegradation, SchedulerContention, FDLeak,
      SyscallLatencyHigh, OOMImminent, SyscallErrorRate, MemoryLimitPressure, MemoryHighThrottling;
  }

  lemma {:induction false} FoundSize(s: Signals, t: Thresholds)
    ensures |Found(s, t)| == Expected(s, t)
  {
    FoundLength(s, t);
    BranchingCounted(s, t);
    SyscallsCounted(s.syscall, t);
    ListsCounted(s);
    hide Found, DiskIOBottleneck, OOMKillOccurred, TCPRetransmitStorm, TCPRTTDegradation, SchedulerContention, FDLeak,
      SyscallLatencyHigh, OOMImminent, SyscallErrorRate, MemoryLimitPressure, MemoryHighThrottling, AnySlow, AnyFails, One;
  }

  /** A report has no findings beyond those: the healthy one, or as many as expected. */
  lemma {:induction false} ReportSize(s: Signals, t: Thresholds)
    ensures |Report(s, t)| == if Expected(s, t) == 0 then 1 else Expected(s, t)
  {
    FoundSize(s, t);
    hide Found, Expected, StableSort;
    SortKeepsSize(OrHealthy(Found(s, t)));
  }

  lemma {:induction false} SortKeepsSize(fs: seq<Finding>)
    ensures |StableSort(fs, Outranks)| == |fs|
  {
    hide Outranks, StableSort;
    OutranksIsOrder();
    StableSortCorrect(fs, Outranks);
    assert |multiset(StableSort(fs, Outranks))| == |multiset(fs)|;
  }
}
