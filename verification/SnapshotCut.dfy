/** What the cut of a snapshot to 64 rows, made before any rule sees it, can hide. */
module SnapshotCut {
  import opened Options
  import opened Recency
  import opened HistogramModel
  import opened Percentiles
  import opened Aggregation
  import opened SyscallCollector
  import opened Sorting
  import opened Rules
  import opened RuleProperties
  import opened Pipeline

  function Kept(ranked: seq<SyscallRow>): seq<SyscallRow> {
    Take(ranked, MAX_ENTRIES_PER_SNAPSHOT)
  }

  // ---- The latency rule ----

  /** How many rows stand before the first hot one; all of them if none is hot. */
  function BeforeFirstHot(rows: seq<SyscallRow>, t: Thresholds): (n: nat)
    ensures n <= |rows|
    ensures n < |rows| ==> IsHot(rows[n], t)
    ensures forall i :: 0 <= i < n ==> !IsHot(rows[i], t)
  {
    if rows == [] || IsHot(rows[0], t) then 0 else 1 + BeforeFirstHot(rows[1..], t)
  }

  lemma {:induction false} HotWithin(rows: seq<SyscallRow>, t: Thresholds, k: nat)
    requires k <= |rows|
    ensures Hot(rows[..k], t) != [] <==> BeforeFirstHot(rows, t) < k
  {
    var n := BeforeFirstHot(rows, t);
    HotMembers(rows[..k], t);
    if n < k {
      assert rows[..k][n] == rows[n];
      assert rows[n] in Hot(rows[..k], t);
    } else {
      assert forall i :: 0 <= i < k ==> rows[..k][i] == rows[i];
      FirstIsMember(Hot(rows[..k], t));
    }
  }

  lemma {:induction false} FirstIsMember(rows: seq<SyscallRow>)
    ensures rows != [] ==> rows[0] in rows
  {
  }

  /** The latency finding on the cut list is that on all tracked keys exactly when fewer
      than 64 rows stand before the first hot one, or none is hot. The rows before it are
      those of blocking calls that take at least as long. */
  lemma {:induction false} LatencyCutIff(ranked: seq<SyscallRow>, t: Thresholds)
    requires WorstFirst(ranked)
    ensures var n := BeforeFirstHot(ranked, t);
            (SyscallLatencyHigh(Some(Kept(ranked)), t) == SyscallLatencyHigh(Some(ranked), t) <==>
               n < MAX_ENTRIES_PER_SNAPSHOT || n == |ranked|)
    ensures var n := BeforeFirstHot(ranked, t);
            forall i :: 0 <= i < n < |ranked| ==>
              IsBlockingSyscall(ranked[i].nr) && ranked[i].latency.p99 >= ranked[n].latency.p99
  {
    hide SyscallLatencyHigh, Hot;
    var kept := Kept(ranked);
    CutMattersIff(ranked, t);
    HotWithin(ranked, t, |kept|);
    HotWithin(ranked, t, |ranked|);
    assert kept == ranked[..|kept|] && ranked == ranked[..|ranked|];
  }

  // ---- The error-rate rule ----

  lemma {:induction false} FailingOfConcat(a: seq<SyscallRow>, b: seq<SyscallRow>)
    ensures FailingOf(a + b) == FailingOf(a) + FailingOf(b)
  {
    hide Failing;
    if b == [] {
      assert a + b == a;
    } else {
      var front, last := b[..|b| - 1], b[|b| - 1];
      assert (a + b)[..|a + b| - 1] == a + front;
      FailingOfConcat(a, front);
    }
  }

  /** Further entries change the foremost one only by failing more. */
  lemma {:induction false} ForemostOfConcat(a: seq<SyscallRow>, b: seq<SyscallRow>)
    requires a != []
    ensures Foremost(a + b) == Foremost(a) || (Foremost(a + b) in b && ErrorPct(Foremost(a + b)) > ErrorPct(Foremost(a)))
  {
    hide ErrorPct;
    if b == [] {
      assert a + b == a;
    } else {
      var front, last := b[..|b| - 1], b[|b| - 1];
      assert (a + b)[..|a + b| - 1] == a + front;
      ForemostOfConcat(a, front);
      assert last in b;
    }
  }

  /** The error-rate finding on the cut list is that on all tracked keys exactly when the
      entry that fails most made the cut, or none fails. The cut ranks by latency, so
      nothing ties the two together. */
  lemma {:induction false} ErrorRateCutIff(ranked: seq<SyscallRow>)
    ensures SyscallErrorRate(Some(Kept(ranked))) == SyscallErrorRate(Some(ranked))
       <==> FailingOf(ranked) == [] || Foremost(FailingOf(ranked)) in Kept(ranked)
  {
    hide ErrorPct, Failing, FailingOf;
    var kept := Kept(ranked);
    var rest := ranked[|kept|..];
    var a, b := FailingOf(kept), FailingOf(rest);
    assert ranked == kept + rest;
    FailingOfConcat(kept, rest);
    if a + b != [] {
      var top := Foremost(a + b);
      ForemostIsMaximum(a + b);
      FailingMembers(kept);
      FailingMembers(ranked);
      if a != [] {
        ForemostIsMaximum(a);
        ForemostOfConcat(a, b);
        assert Foremost(a) in a;
      }
    }
  }

  // ---- Logs on which the cut hides something ----

  /** A latency that is a positive int64 duration. */
  predicate Plain(event: SyscallEvent) {
    1 <= event.latencyNs < TWO64 / 2
  }

  function KeyOf(event: SyscallEvent): SyscallKey {
    SyscallKey(event.nr, event.comm)
  }

  function LogFor(events: seq<SyscallEvent>): (log: Log)
    ensures |log| == |events|
  {
    seq(|events|, i requires 0 <= i < |events| => Keyed(KeyOf(events[i]), events[i]))
  }

  /** The line of a key with one event. */
  function RowFor(event: SyscallEvent): SyscallRow {
    var v := event.latencyNs;
    SyscallRow(event.nr, event.comm, 1, if IsSyscallError(event.ret) then 1 else 0, Percentiles(v, v, v, v))
  }

  /** One line per event, newest first. */
  function RowsFor(events: seq<SyscallEvent>): (rows: seq<SyscallRow>)
    ensures |rows| == |events|
  {
    seq(|events|, i requires 0 <= i < |events| => RowFor(events[|events| - 1 - i]))
  }

  lemma {:induction false} RowOfOne(event: SyscallEvent)
    requires Plain(event)
    ensures RowOf(KeyOf(event), [event]) == RowFor(event)
  {
    hide PercentilesOf;
    var none: seq<SyscallEvent> := [];
    assert [event][..0] == none;
    assert Latencies([event]) == Latencies(none) + [Counted(event.latencyNs)] == [Counted(event.latencyNs)];
    assert Errors([event]) == Errors(none) + if IsSyscallError(event.ret) then 1 else 0;
    PercentilesOfOne(event.latencyNs);
  }

  /** After events of different keys the tracked rows are theirs, and if these are in
      order already, their first 64 are a snapshot. */
  lemma {:induction false} SnapshotOfEvents(events: seq<SyscallEvent>, cap: nat)
    requires cap > 0 && |events| <= cap
    requires forall i :: 0 <= i < |events| ==> Plain(events[i])
    requires forall i, j :: 0 <= i < j < |events| ==> KeyOf(events[i]) != KeyOf(events[j])
    requires Sorted(RowsFor(events), RanksBefore)
    ensures SnapshotOf(Kept(RowsFor(events)), LogFor(events), cap, RowsFor(events), RowsFor(events))
  {
    var log := LogFor(events);
    assert NoDup(LogKeys(log));
    DistinctKeys(log, cap);
    hide RowOf, RowFor, KeyOf, Aggregate, Sorted, NoDup, Plain;
    forall i | 0 <= i < |events|
      ensures RowOf(Singles(log)[i].k, Singles(log)[i].v) == RowsFor(events)[i]
    {
      RowOfOne(events[|events| - 1 - i]);
    }
  }

  /** Names that differ. */
  function Comm(i: nat): string {
    if i < 64 then [(48 + i) as char] else ""
  }

  /** One call, and after it the same call by 64 other commands. */
  function Crowd(first: SyscallEvent, nr: nat, latencyNs: Word): (events: seq<SyscallEvent>)
    ensures |events| == MAX_ENTRIES_PER_SNAPSHOT + 1
  {
    [first] + seq(MAX_ENTRIES_PER_SNAPSHOT, i requires 0 <= i < MAX_ENTRIES_PER_SNAPSHOT =>
      SyscallEvent(nr, Comm(i), latencyNs, 0))
  }

  /** If the crowd is no faster than the first call, it fills the snapshot of an LRU of
      the default size. */
  lemma {:induction false} CrowdFillsSnapshot(first: SyscallEvent, nr: nat, latencyNs: Word)
      returns (log: Log, all: seq<SyscallRow>)
    requires Plain(first) && first.nr != nr && first.latencyNs <= latencyNs < TWO64 / 2
    ensures SnapshotOf(Kept(all), log, DEFAULT_KEY_CAP, all, all)
    ensures forall i :: 0 <= i < |log| ==> log[i].e.latencyNs >= first.latencyNs
    ensures |all| == MAX_ENTRIES_PER_SNAPSHOT + 1 && all[MAX_ENTRIES_PER_SNAPSHOT] == RowFor(first)
    ensures forall e :: e in Kept(all) ==> e.nr == nr && e.errorCount == 0
  {
    var events := Crowd(first, nr, latencyNs);
    log, all := LogFor(events), RowsFor(events);
    CrowdDiffers(first, nr, latencyNs);
    CrowdSorted(first, nr, latencyNs);
    CrowdRow(first, nr, latencyNs, MAX_ENTRIES_PER_SNAPSHOT);
    SnapshotOfEvents(events, DEFAULT_KEY_CAP);
    forall e | e in Kept(all)
      ensures e.nr == nr && e.errorCount == 0
    {
      var i :| 0 <= i < MAX_ENTRIES_PER_SNAPSHOT && all[i] == e;
      CrowdRow(first, nr, latencyNs, i);
    }
  }

  /** The rows of a crowd, newest first. */
  lemma {:induction false} CrowdRow(first: SyscallEvent, nr: nat, latencyNs: Word, i: nat)
    requires i <= MAX_ENTRIES_PER_SNAPSHOT
    ensures var n := MAX_ENTRIES_PER_SNAPSHOT;
            RowsFor(Crowd(first, nr, latencyNs))[i]
            == RowFor(if i < n then SyscallEvent(nr, Comm(n - 1 - i), latencyNs, 0) else first)
  {
    hide RowFor;
    var n, events := MAX_ENTRIES_PER_SNAPSHOT, Crowd(first, nr, latencyNs);
    assert RowsFor(events)[i] == RowFor(events[n - i]);
    assert i < n ==> events[n - i] == SyscallEvent(nr, Comm(n - i - 1), latencyNs, 0);
  }

  lemma {:induction false} CrowdSorted(first: SyscallEvent, nr: nat, latencyNs: Word)
    requires first.latencyNs <= latencyNs
    ensures Sorted(RowsFor(Crowd(first, nr, latencyNs)), RanksBefore)
  {
    hide Crowd, RowsFor;
    var rows := RowsFor(Crowd(first, nr, latencyNs));
    forall i, j | 0 <= i < j < |rows|
      ensures !RanksBefore(rows[j], rows[i])
    {
      CrowdRow(first, nr, latencyNs, i);
      CrowdRow(first, nr, latencyNs, j);
    }
  }

  lemma {:induction false} CrowdDiffers(first: SyscallEvent, nr: nat, latencyNs: Word)
    requires first.nr != nr
    ensures var events := Crowd(first, nr, latencyNs);
            forall i, j :: 0 <= i < j < |events| ==> KeyOf(events[i]) != KeyOf(events[j])
  {
    var events := Crowd(first, nr, latencyNs);
    forall i, j | 0 <= i < j < |events|
      ensures KeyOf(events[i]) != KeyOf(events[j])
    {
      if i > 0 {
        assert events[i].comm == Comm(i - 1) && events[j].comm == Comm(j - 1);
        assert Comm(i - 1)[0] != Comm(j - 1)[0];
      }
    }
  }

  /** One slow call, then 64 commands that block for as long: the snapshot holds only
      these, and the latency rule is silent. A latency of 1000 ns is the least that the
      kernel reports; the threshold is an int64. */
  lemma {:induction false} LatencyHidden(t: Thresholds) returns (log: Log, all: seq<SyscallRow>)
    requires t.syscallWarning < TWO64 / 2
    ensures SnapshotOf(Kept(all), log, DEFAULT_KEY_CAP, all, all)
    ensures forall i :: 0 <= i < |log| ==> log[i].e.latencyNs >= 1000
    ensures SyscallLatencyHigh(Some(Kept(all)), t) == [] && SyscallLatencyHigh(Some(all), t) != []
  {
    var latency: Word := if t.syscallWarning < 1000 then 1000 else t.syscallWarning;
    var first := SyscallEvent(0, "", latency, 0);
    log, all := CrowdFillsSnapshot(first, 7, latency);
    HotMembers(Kept(all), t);
    HotMembers(all, t);
    FirstIsMember(Hot(Kept(all), t));
    assert RowFor(first) in Hot(all, t);
  }

  lemma {:induction false} AlwaysFails(row: SyscallRow)
    requires row.count == 1 && row.errorCount == 1 && !IsBlockingSyscall(row.nr)
    ensures Failing(row)
  {
    assert ErrorPct(row) == 100.0;
  }

  /** One call that fails, then 64 slower ones that do not: the error-rate rule is
      silent. */
  lemma {:induction false} ErrorsHidden() returns (log: Log, all: seq<SyscallRow>)
    ensures SnapshotOf(Kept(all), log, DEFAULT_KEY_CAP, all, all)
    ensures forall i :: 0 <= i < |log| ==> log[i].e.latencyNs >= 1000
    ensures SyscallErrorRate(Some(Kept(all))) == [] && SyscallErrorRate(Some(all)) != []
  {
    var first := SyscallEvent(1, "", 1000, 0xFFFF_FFFF);
    log, all := CrowdFillsSnapshot(first, 0, 5000);
    FailingMembers(Kept(all));
    FailingMembers(all);
    FirstIsMember(FailingOf(Kept(all)));
    AlwaysFails(RowFor(first));
    hide FailingOf, Foremost, ErrorPct, SnapshotOf;
    assert RowFor(first) in all;
    assert RowFor(first) in FailingOf(all);
  }
}
