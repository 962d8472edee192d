/** The hooks of the three kernel programs, each pair over its own hash map. The
    program's own history is kept beside the map. */
module PairingHooks {
  import opened Options
  import opened Pairing

  class SyscallLatency {
    var syscallStart: map<Word, Word>
    ghost var trace: seq<Hook>
    ghost var reports: seq<Report>

    ghost predicate Valid()
      reads this
    {
      State(syscallStart, reports) == Run(SYSCALLS, Some(MAX_ENTRIES), trace)
    }

    constructor ()
      ensures Valid() && trace == []
    {
      syscallStart, trace, reports := map[], [], [];
    }

    method SysEnter(pidTgid: Word, ts: Word)
      requires Valid()
      modifies this
      ensures Valid() && trace == old(trace) + [Begin(pidTgid, ts)] && reports == old(reports)
    {
      syscallStart := Update(syscallStart, Some(MAX_ENTRIES), pidTgid, ts);
      trace := trace + [Begin(pidTgid, ts)];
      assert trace[..|trace| - 1] == old(trace);
    }

    method SysExit(pidTgid: Word, now: Word, room: bool) returns (e: Option<Word>)
      requires Valid()
      modifies this
      ensures Valid() && trace == old(trace) + [End(pidTgid, now, room)]
      ensures reports == old(reports) + if e.Some? then [Report(|old(trace)|, pidTgid, e.value)] else []
    {
      ghost var step := |trace|;
      trace := trace + [End(pidTgid, now, room)];
      assert trace[..step] == old(trace);
      if pidTgid !in syscallStart {
        assert syscallStart - {pidTgid} == syscallStart;
        return None;
      }
      var latency := WrapSub(now, syscallStart[pidTgid]);
      syscallStart := syscallStart - {pidTgid};
      if latency < 1000 {
        return None;
      }
      if !room {
        return None;
      }
      e := Some(latency);
      reports := reports + [Report(step, pidTgid, latency)];
    }
  }

  class SchedDelay {
    var wakeupTs: map<Word, Word>
    ghost var trace: seq<Hook>
    ghost var reports: seq<Report>

    ghost predicate Valid()
      reads this
    {
      State(wakeupTs, reports) == Run(SCHEDULER, Some(MAX_ENTRIES), trace)
    }

    constructor ()
      ensures Valid() && trace == []
    {
      wakeupTs, trace, reports := map[], [], [];
    }

    method SchedWakeup(pid: Word, ts: Word)
      requires Valid()
      modifies this
      ensures Valid() && trace == old(trace) + [Begin(pid, ts)] && reports == old(reports)
    {
      wakeupTs := Update(wakeupTs, Some(MAX_ENTRIES), pid, ts);
      trace := trace + [Begin(pid, ts)];
      assert trace[..|trace| - 1] == old(trace);
    }

    method SchedSwitch(nextPid: Word, now: Word, room: bool) returns (e: Option<Word>)
      requires Valid()
      modifies this
      ensures Valid() && trace == old(trace) + [End(nextPid, now, room)]
      ensures reports == old(reports) + if e.Some? then [Report(|old(trace)|, nextPid, e.value)] else []
    {
      ghost var step := |trace|;
      trace := trace + [End(nextPid, now, room)];
      assert trace[..step] == old(trace);
      if nextPid !in wakeupTs {
        assert wakeupTs - {nextPid} == wakeupTs;
        return None;
      }
      var delay := WrapSub(now, wakeupTs[nextPid]);
      wakeupTs := wakeupTs - {nextPid};
      if delay < 1000 {
        return None;
      }
      if !room {
        return None;
      }
      e := Some(delay);
      reports := reports + [Report(step, nextPid, delay)];
    }
  }

  class DiskIo {
    var ioStart: map<Word, Word>
    ghost var trace: seq<Hook>
    ghost var reports: seq<Report>

    ghost predicate Valid()
      reads this
    {
      State(ioStart, reports) == Run(BLOCK_IO, Some(MAX_ENTRIES), trace)
    }

    constructor ()
      ensures Valid() && trace == []
    {
      ioStart, trace, reports := map[], [], [];
    }

    method BlockRqIssue(sector: Word, ts: Word)
      requires Valid()
      modifies this
      ensures Valid() && trace == old(trace) + [Begin(sector, ts)] && reports == old(reports)
    {
      trace := trace + [Begin(sector, ts)];
      assert trace[..|trace| - 1] == old(trace);
      if sector == 0 {
        return;
      }
      ioStart := Update(ioStart, Some(MAX_ENTRIES), sector, ts);
    }

    method BlockRqComplete(sector: Word, now: Word, room: bool) returns (e: Option<Word>)
      requires Valid()
      modifies this
      ensures Valid() && trace == old(trace) + [End(sector, now, room)]
      ensures reports == old(reports) + if e.Some? then [Report(|old(trace)|, sector, e.value)] else []
    {
      ghost var step := |trace|;
      trace := trace + [End(sector, now, room)];
      assert trace[..step] == old(trace);
      if sector !in ioStart {
        assert ioStart - {sector} == ioStart;
        return None;
      }
      var latency := WrapSub(now, ioStart[sector]);
      ioStart := ioStart - {sector};
      if !room {
        return None;
      }
      e := Some(latency);
      reports := reports + [Report(step, sector, latency)];
    }
  }

  /** None of the three maps ever holds more than 8192 begins. */
  lemma {:induction false} MapsFit(syscalls: SyscallLatency, sched: SchedDelay, disk: DiskIo)
    requires syscalls.Valid() && sched.Valid() && disk.Valid()
    ensures |syscalls.syscallStart| <= 8192 && |sched.wakeupTs| <= 8192 && |disk.ioStart| <= 8192
  {
    MapStaysSmall(SYSCALLS, MAX_ENTRIES, syscalls.trace);
    MapStaysSmall(SCHEDULER, MAX_ENTRIES, sched.trace);
    MapStaysSmall(BLOCK_IO, MAX_ENTRIES, disk.trace);
  }
}
