/** What the rules guarantee about a whole report. */
module RuleProperties {
  import opened Options
  import opened Recency
  import opened SyscallCollector
  import opened FindingsKey
  import opened Findings
  import opened Signals
  import opened Sorting
  import opened Rules

  lemma {:induction false} SameMembers(s: Signals, t: Thresholds, f: Finding)
    ensures f in Report(s, t) <==> f in OrHealthy(Found(s, t))
  {
    hide Found, OrHealthy, StableSort, Outranks, Sorted, TiedWith;
    OutranksIsOrder();
    StableSortCorrect(OrHealthy(Found(s, t)), Outranks);
    assert f in multiset(Report(s, t)) <==> f in multiset(OrHealthy(Found(s, t)));
  }

  /** p holds of everything all rules together find, if it does of what each finds. */
  lemma {:induction false} Throughout(s: Signals, t: Thresholds, p: Finding -> bool)
    requires forall f :: f in DiskIOBottleneck(s.disk, t) + OOMKillOccurred(s.oom) ==> p(f)
    requires forall f :: f in TCPRetransmitStorm(s.tcp, t) + TCPRTTDegradation(s.tcp) ==> p(f)
    requires forall f :: f in SchedulerContention(s.sched, t) + FDLeak(s.fd, t) ==> p(f)
    requires forall f :: f in SyscallLatencyHigh(s.syscall, t) + OOMImminent(s.memory, t) ==> p(f)
    requires forall f :: f in SyscallErrorRate(s.syscall) + MemoryLimitPressure(s.cgroups) + MemoryHighThrottling(s.cgroups) ==> p(f)
    ensures forall f :: f in Found(s, t) ==> p(f)
  {
    hide DiskIOBottleneck, OOMKillOccurred, TCPRetransmitStorm, TCPRTTDegradation, SchedulerContention, FDLeak,
      SyscallLatencyHigh, OOMImminent, SyscallErrorRate, MemoryLimitPressure, MemoryHighThrottling;
  }

  lemma {:induction false} VictimShape(comms: seq<string>)
    ensures |Victims(comms)| == |comms|
    ensures forall f :: f in Victims(comms) ==>
              f.rule == "oom_kill_occurred" && f.severity == Critical && f.value == 1.0 && f.threshold == 0.0
  {
    if comms != [] {
      VictimShape(comms[..|comms| - 1]);
    }
  }

  lemma {:induction false} ContainerShape(cs: seq<CgroupSignal>, rule: CgroupSignal -> seq<Finding>, f: Finding)
    ensures f in PerContainer(cs, rule) <==> exists i :: 0 <= i < |cs| && f in rule(cs[i])
  {
    if cs != [] {
      var n := |cs| - 1;
      ContainerShape(cs[..n], rule, f);
      if f in PerContainer(cs[..n], rule) {
        var i :| 0 <= i < n && f in rule(cs[..n][i]);
        assert f in rule(cs[i]);
      }
      if f in rule(cs[n]) {
        assert f in PerContainer(cs, rule);
      }
      if i :| 0 <= i < |cs| && f in rule(cs[i]) && i < n {
        assert cs[..n][i] == cs[i];
      }
    }
  }

  // ---- Rule names ----

  const RULE_NAMES: set<string> := {
    "disk_io_bottleneck", "disk_io_write_high", "oom_kill_occurred", "tcp_retransmit_storm", "tcp_rtt_degradation",
    "scheduler_contention", "fd_leak", "syscall_latency_high", "oom_imminent", "syscall_error_rate",
    "memory_limit_pressure", "memory_high_throttling"
  }

  predicate Named(f: Finding) {
    f.rule in RULE_NAMES
  }

  lemma {:induction false} AllNamed(s: Signals, t: Thresholds)
    ensures forall f :: f in Found(s, t) ==> Named(f)
  {
    if s.oom.Some? {
      VictimShape(s.oom.value.victims);
    }
    if s.cgroups.Some? {
      forall f | f in MemoryLimitPressure(s.cgroups) + MemoryHighThrottling(s.cgroups)
        ensures Named(f)
      {
        ContainerShape(s.cgroups.value, Pressure, f);
        ContainerShape(s.cgroups.value, Throttling, f);
      }
    }
    Throughout(s, t, Named);
  }

  /** A report calls the system healthy exactly when no rule found anything, and then
      says nothing else. */
  lemma {:induction false} HealthyExactlyWhenAlone(s: Signals, t: Thresholds)
    ensures (exists f :: f in Report(s, t) && f.rule == "healthy_system") <==> Found(s, t) == []
    ensures Found(s, t) == [] <==> Report(s, t) == [HEALTHY_SYSTEM]
    ensures Report(s, t) != []
  {
    AllNamed(s, t);
    hide Found;
    if Found(s, t) == [] {
      Alone(HEALTHY_SYSTEM);
      assert HEALTHY_SYSTEM in Report(s, t);
    } else {
      forall f | f in Report(s, t)
        ensures f.rule != "healthy_system"
      {
        SameMembers(s, t, f);
        NotHealthy(f.rule);
      }
    }
  }

  lemma {:induction false} Alone(f: Finding)
    ensures StableSort([f], Outranks) == [f]
  {
    assert [f][..0] == [];
  }

  lemma {:induction false} NotHealthy(rule: string)
    requires rule in RULE_NAMES
    ensures rule != "healthy_system"
  {
    assert |rule| != |"healthy_system"|;
  }

  /** Two reports with the same cache key list the same rules with the same severities
      in the same order: no rule name can be mistaken for more than one finding. */
  lemma {:induction false} ReportKeyInjective(s1: Signals, t1: Thresholds, s2: Signals, t2: Thresholds)
    requires Fingerprint(Diagnoses(Report(s1, t1))) == Fingerprint(Diagnoses(Report(s2, t2)))
    ensures Diagnoses(Report(s1, t1)) == Diagnoses(Report(s2, t2))
  {
    ReportIsClean(s1, t1);
    ReportIsClean(s2, t2);
    hide *;
    FingerprintInjective(Diagnoses(Report(s1, t1)), Diagnoses(Report(s2, t2)));
  }

  /** The part of a report that its cache key sees. */
  function Diagnoses(fs: seq<Finding>): (r: seq<Diagnosis>)
    ensures |r| == |fs| && forall i :: 0 <= i < |fs| ==> r[i] == Diagnosis(fs[i].rule, fs[i].severity)
  {
    if fs == [] then [] else Diagnoses(fs[..|fs| - 1]) + [Diagnosis(fs[|fs| - 1].rule, fs[|fs| - 1].severity)]
  }

  lemma {:induction false} ReportIsClean(s: Signals, t: Thresholds)
    ensures forall i :: 0 <= i < |Diagnoses(Report(s, t))| ==> Clean(Diagnoses(Report(s, t))[i].rule)
  {
    AllNamed(s, t);
    hide Found, Clean, StableSort;
    var fs := Report(s, t);
    forall i | 0 <= i < |fs|
      ensures Clean(fs[i].rule)
    {
      SameMembers(s, t, fs[i]);
      NameIsClean(fs[i].rule);
    }
  }

  lemma {:induction false} NameIsClean(rule: string)
    requires rule in RULE_NAMES || rule == HEALTHY_SYSTEM.rule
    ensures Clean(rule)
  {
    hide Clean;
    assert ':' !in rule;
    NoColonIsClean(rule);
  }

  // ---- Values and thresholds ----

  predicate Exceeds(f: Finding) {
    f.value >= f.threshold
  }

  /** The first hot entry is as critical as any hot entry. */
  ghost predicate HeadlineHolds(syscall: Option<seq<SyscallRow>>, t: Thresholds) {
    syscall.Some? && AnyCritical(syscall.value, t) ==>
      Hot(syscall.value, t) != [] && Hot(syscall.value, t)[0].latency.p99 >= t.syscallCritical
  }

  lemma {:induction false} HotMembers(entries: seq<SyscallRow>, t: Thresholds)
    ensures forall e :: e in Hot(entries, t) <==> e in entries && IsHot(e, t)
  {
    if entries != [] {
      HotMembers(entries[..|entries| - 1], t);
      assert entries == entries[..|entries| - 1] + [entries[|entries| - 1]];
    }
  }

  lemma {:induction false} FailingMembers(entries: seq<SyscallRow>)
    ensures forall e :: e in FailingOf(entries) <==> e in entries && Failing(e)
  {
    hide Failing;
    if entries != [] {
      FailingMembers(entries[..|entries| - 1]);
      assert entries == entries[..|entries| - 1] + [entries[|entries| - 1]];
    }
  }

  lemma {:induction false} LatencyExceedsIff(syscall: Option<seq<SyscallRow>>, t: Thresholds)
    ensures (forall f :: f in SyscallLatencyHigh(syscall, t) ==> Exceeds(f)) <==> HeadlineHolds(syscall, t)
  {
    if syscall.Some? {
      var entries := syscall.value;
      HotMembers(entries, t);
      if Hot(entries, t) == [] {
        forall e | e in entries
          ensures !IsHot(e, t)
        {
        }
      } else {
        var f := SyscallLatencyHigh(syscall, t)[0];
        assert f in SyscallLatencyHigh(syscall, t);
        assert Hot(entries, t)[0] in Hot(entries, t);
      }
    }
  }

  lemma {:induction false} ErrorRateExceeds(syscall: Option<seq<SyscallRow>>)
    ensures forall f :: f in SyscallErrorRate(syscall) ==> Exceeds(f)
  {
    if syscall.Some? && FailingOf(syscall.value) != [] {
      FailingMembers(syscall.value);
      ForemostIsMaximum(FailingOf(syscall.value));
    }
  }

  lemma {:induction false} ContainersExceed(cgroups: Option<seq<CgroupSignal>>)
    ensures forall f :: f in MemoryLimitPressure(cgroups) + MemoryHighThrottling(cgroups) ==> Exceeds(f)
  {
    if cgroups.Some? {
      forall f | f in MemoryLimitPressure(cgroups) + MemoryHighThrottling(cgroups)
        ensures Exceeds(f)
      {
        ContainerShape(cgroups.value, Pressure, f);
        ContainerShape(cgroups.value, Throttling, f);
      }
    }
  }

  /** Every finding of a report has reached the threshold it names, exactly when the
      headline of the latency rule has. */
  lemma {:induction false} ReportExceedsIff(s: Signals, t: Thresholds)
    ensures (forall f :: f in Report(s, t) ==> Exceeds(f)) <==> HeadlineHolds(s.syscall, t)
  {
    LatencyExceedsIff(s.syscall, t);
    forall f
      ensures f in Report(s, t) <==> f in OrHealthy(Found(s, t))
    {
      SameMembers(s, t, f);
    }
    if HeadlineHolds(s.syscall, t) {
      if s.oom.Some? {
        VictimShape(s.oom.value.victims);
      }
      ErrorRateExceeds(s.syscall);
      ContainersExceed(s.cgroups);
      hide SyscallErrorRate, SyscallLatencyHigh, MemoryLimitPressure, MemoryHighThrottling, HeadlineHolds, Report, OrHealthy;
      Throughout(s, t, Exceeds);
    } else {
      var f :| f in SyscallLatencyHigh(s.syscall, t) && !Exceeds(f);
      LatencyIsFound(s, t, f);
    }
  }

  lemma {:induction false} LatencyIsFound(s: Signals, t: Thresholds, f: Finding)
    requires f in SyscallLatencyHigh(s.syscall, t)
    ensures f in OrHealthy(Found(s, t))
  {
    hide DiskIOBottleneck, OOMKillOccurred, TCPRetransmitStorm, TCPRTTDegradation, SchedulerContention, FDLeak,
      SyscallLatencyHigh, OOMImminent, SyscallErrorRate, MemoryLimitPressure, MemoryHighThrottling;
  }

  // ---- The headline of the latency rule ----

  /** What the collector's snapshots are: ordered by P99, worst first. */
  ghost predicate WorstFirst(entries: seq<SyscallRow>) {
    forall i, j :: 0 <= i < j < |entries| ==> entries[i].latency.p99 >= entries[j].latency.p99
  }

  lemma {:induction false} SnapshotIsWorstFirst(ranked: seq<SyscallRow>)
    requires Sorted(ranked, RanksBefore)
    ensures WorstFirst(ranked) && WorstFirst(Take(ranked, MAX_ENTRIES_PER_SNAPSHOT))
  {
  }

  lemma {:induction false} FirstHotIsWorst(entries: seq<SyscallRow>, t: Thresholds)
    requires WorstFirst(entries) && Hot(entries, t) != []
    ensures forall e :: e in entries && !IsBlockingSyscall(e.nr) ==> e.latency.p99 <= Hot(entries, t)[0].latency.p99
  {
    var n := |entries| - 1;
    var front, last := entries[..n], entries[n];
    assert entries == front + [last];
    HotMembers(entries, t);
    assert Hot(entries, t)[0] in entries;
    if Hot(front, t) == [] {
      HotMembers(front, t);
      assert IsHot(last, t) && Hot(entries, t) == [last];
      forall e | e in entries && !IsBlockingSyscall(e.nr)
        ensures e.latency.p99 <= last.latency.p99
      {
        assert e in front ==> !IsHot(e, t);
      }
    } else {
      FirstHotIsWorst(front, t);
      var top := Hot(front, t)[0];
      HotMembers(front, t);
      assert top in front;
      var k :| 0 <= k < n && entries[k] == top;
      assert last.latency.p99 <= top.latency.p99;
    }
  }

  /** On a snapshot the latency rule names the worst non-blocking entry. It speaks up
      exactly when that one is slow enough for a warning, and then is critical exactly
      when it is slow enough for that. */
  lemma {:induction false} HeadlineIsWorst(entries: seq<SyscallRow>, t: Thresholds)
    requires WorstFirst(entries)
    ensures SyscallLatencyHigh(Some(entries), t) == [] <==>
              forall e :: e in entries && !IsBlockingSyscall(e.nr) ==> e.latency.p99 < t.syscallWarning
    ensures SyscallLatencyHigh(Some(entries), t) != [] ==>
              var f := SyscallLatencyHigh(Some(entries), t)[0];
              && (exists e :: e in entries && !IsBlockingSyscall(e.nr) && f.value == e.latency.p99 as real && f.process == e.comm)
              && (forall e :: e in entries && !IsBlockingSyscall(e.nr) ==> e.latency.p99 as real <= f.value)
              && (f.severity == Critical <==> f.value >= t.syscallCritical as real)
    ensures HeadlineHolds(Some(entries), t)
  {
    HotMembers(entries, t);
    var hot := Hot(entries, t);
    if hot == [] {
      forall e | e in entries && !IsBlockingSyscall(e.nr)
        ensures e.latency.p99 < t.syscallWarning
      {
        assert !IsHot(e, t);
      }
    } else {
      FirstHotIsWorst(entries, t);
      assert hot[0] in hot;
      var k :| 0 <= k < |entries| && entries[k] == hot[0];
    }
  }

  lemma {:induction false} HotOfConcat(a: seq<SyscallRow>, b: seq<SyscallRow>, t: Thresholds)
    ensures Hot(a + b, t) == Hot(a, t) + Hot(b, t)
  {
    hide IsHot;
    if b == [] {
      assert a + b == a;
    } else {
      var front, last := b[..|b| - 1], b[|b| - 1];
      assert (a + b)[..|a + b| - 1] == a + front;
      HotOfConcat(a, front, t);
    }
  }

  /** The snapshot is cut before blocking calls are filtered out. What the rule says
      about the cut list is what it would say about all tracked keys exactly when some
      slow non-blocking key made the cut, or there is none at all. */
  lemma {:induction false} CutMattersIff(ranked: seq<SyscallRow>, t: Thresholds)
    requires WorstFirst(ranked)
    ensures var kept := Take(ranked, MAX_ENTRIES_PER_SNAPSHOT);
            (SyscallLatencyHigh(Some(kept), t) == SyscallLatencyHigh(Some(ranked), t) <==>
               Hot(kept, t) != [] || Hot(ranked, t) == [])
  {
    var kept := Take(ranked, MAX_ENTRIES_PER_SNAPSHOT);
    var rest := ranked[|kept|..];
    assert ranked == kept + rest;
    HotOfConcat(kept, rest, t);
    if Hot(kept, t) != [] {
      CriticalTop(kept, t);
      CriticalTop(ranked, t);
      assert Hot(kept, t)[0] == Hot(ranked, t)[0];
    }
  }

  lemma {:induction false} CriticalTop(entries: seq<SyscallRow>, t: Thresholds)
    requires WorstFirst(entries) && Hot(entries, t) != []
    ensures AnyCritical(entries, t) <==> Hot(entries, t)[0].latency.p99 >= t.syscallCritical
  {
    FirstHotIsWorst(entries, t);
    HotMembers(entries, t);
    assert Hot(entries, t)[0] in Hot(entries, t);
    var k :| 0 <= k < |entries| && entries[k] == Hot(entries, t)[0];
  }
}
