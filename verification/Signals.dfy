/** What one collection window hands to the rules and to the predictors: for each
    kind of signal a snapshot, or nothing where the collector is off. */
module Signals {
  import opened Options
  import opened SyscallCollector

  datatype TcpSignal = TcpSignal(retransmitRate: real, rttP99: int)

  datatype OomSignal = OomSignal(victims: seq<string>, count: int)

  datatype DiskSignal = DiskSignal(syncP99: int, writeP99: int)

  datatype SchedSignal = SchedSignal(runqP99: int, topDelayed: seq<string>)

  datatype FdSignal = FdSignal(growthRate: real, netDelta: int, leakers: seq<string>)

  datatype MemorySignal = MemorySignal(usedPct: real, growthRate: real, available: nat)

  datatype CgroupSignal = CgroupSignal(pod: string, current: nat, limit: nat, usedPct: real,
                                       growthRate: real, highEventRate: real)

  /** Durations and the timestamp are in nanoseconds. */
  datatype Signals = Signals(timestamp: int,
                             syscall: Option<seq<SyscallRow>>,
                             tcp: Option<TcpSignal>,
                             oom: Option<OomSignal>,
                             disk: Option<DiskSignal>,
                             sched: Option<SchedSignal>,
                             fd: Option<FdSignal>,
                             memory: Option<MemorySignal>,
                             cgroups: Option<seq<CgroupSignal>>)
}
