/** Start/stop pairing in the kernel: a begin stores its time under a key in a bounded
    hash map, the next end of that key takes it out and reports the difference. */
module Pairing {
  import opened Options

  const MAX_ENTRIES: nat := 8192
  const TWO64: nat := 0x1_0000_0000_0000_0000

  type Word = v: nat | v < TWO64

  /** Differences below minLatency are noise; begins of the ignored key are skipped. */
  datatype Program = Program(minLatency: nat, ignored: Option<Word>)

  const SYSCALLS := Program(1000, None)
  const SCHEDULER := Program(1000, None)
  const BLOCK_IO := Program(0, Some(0))

  /** The hooks, in the order in which they run on all processors together; room says
      whether the ring buffer grants a reservation. */
  datatype Hook = Begin(key: Word, at: Word) | End(key: Word, at: Word, room: bool)

  /** A reported latency, and the hook of the trace that reported it. */
  datatype Report = Report(step: nat, key: Word, latency: Word)

  datatype State = State(start: map<Word, Word>, reports: seq<Report>)

  /** Subtraction on uint64. */
  function WrapSub(a: Word, b: Word): (r: Word)
    ensures r == (a - b) % 0x1_0000_0000_0000_0000
  {
    if a >= b then a - b else a - b + TWO64
  }

  /** bpf_map_update_elem with BPF_ANY: a known key is overwritten, a new one fails
      when the map is full. */
  function Update(m: map<Word, Word>, limit: Option<nat>, key: Word, at: Word): map<Word, Word> {
    if key in m || limit.None? || |m| < limit.value then m[key := at] else m
  }

  function OnBegin(p: Program, limit: Option<nat>, m: map<Word, Word>, key: Word, at: Word): map<Word, Word> {
    if p.ignored == Some(key) then m else Update(m, limit, key, at)
  }

  function OnEnd(p: Program, m: map<Word, Word>, step: nat, key: Word, at: Word, room: bool): Option<Report> {
    if key !in m then None
    else
      var latency := WrapSub(at, m[key]);
      if latency < p.minLatency || !room then None else Some(Report(step, key, latency))
  }

  /** The trace so far on an empty map; without a limit it is the ideal pairing. */
  function Run(p: Program, limit: Option<nat>, trace: seq<Hook>): State {
    if trace == [] then State(map[], [])
    else
      var n := |trace| - 1;
      var s := Run(p, limit, trace[..n]);
      match trace[n]
      case Begin(key, at) => s.(start := OnBegin(p, limit, s.start, key, at))
      case End(key, at, room) =>
        State(s.start - {key},
              match OnEnd(p, s.start, n, key, at, room)
              case Some(r) => s.reports + [r]
              case None => s.reports)
  }

  // ---- The same, told about the trace alone ----

  /** The latest begin of key before step n with no end of it in between. */
  function LatestBegin(p: Program, trace: seq<Hook>, n: nat, key: Word): Option<nat>
    requires n <= |trace|
  {
    if n == 0 then None
    else if trace[n - 1].key != key then LatestBegin(p, trace, n - 1, key)
    else if trace[n - 1].End? then None
    else if p.ignored == Some(key) then LatestBegin(p, trace, n - 1, key)
    else Some(n - 1)
  }

  /** The begin at step j found its key or room in the map. */
  ghost predicate Accepted(p: Program, limit: Option<nat>, trace: seq<Hook>, j: nat)
    requires j < |trace|
  {
    var m := Run(p, limit, trace[..j]).start;
    trace[j].key in m || limit.None? || |m| < limit.value
  }

  lemma {:induction false} LatestBeginIsLatest(p: Program, trace: seq<Hook>, n: nat, key: Word)
    requires n <= |trace|
    ensures match LatestBegin(p, trace, n, key)
            case Some(j) =>
              && j < n && trace[j].Begin? && trace[j].key == key && p.ignored != Some(key)
              && forall i :: j < i < n ==> trace[i].key != key
            case None =>
              forall j :: 0 <= j < n && trace[j].Begin? && trace[j].key == key && p.ignored != Some(key)
                ==> exists i :: j < i < n && trace[i].End? && trace[i].key == key
  {
    if n > 0 {
      LatestBeginIsLatest(p, trace, n - 1, key);
      if trace[n - 1].key == key && trace[n - 1].End? {
        forall j | 0 <= j < n && trace[j].Begin? && trace[j].key == key
          ensures exists i :: j < i < n && trace[i].End? && trace[i].key == key
        {
          assert j < n - 1;
        }
      }
    }
  }

  lemma {:induction false} LatestBeginOfPrefix(p: Program, trace: seq<Hook>, n: nat, k: nat, key: Word)
    requires n <= k <= |trace|
    ensures LatestBegin(p, trace[..k], n, key) == LatestBegin(p, trace, n, key)
  {
    if n > 0 {
      LatestBeginOfPrefix(p, trace, n - 1, k, key);
    }
  }

  lemma {:induction false} AcceptedInPrefix(p: Program, limit: Option<nat>, trace: seq<Hook>, n: nat, j: nat)
    requires j < n <= |trace|
    ensures Accepted(p, limit, trace[..n], j) <==> Accepted(p, limit, trace, j)
  {
    assert trace[..n][..j] == trace[..j];
  }

  /** The map holds exactly the times of the begins that are still open and were
      accepted, and never more entries than its limit. */
  lemma {:induction false} MapMeaning(p: Program, limit: Option<nat>, trace: seq<Hook>, key: Word)
    ensures var m := Run(p, limit, trace).start;
            match LatestBegin(p, trace, |trace|, key)
            case Some(j) => j < |trace| && (key in m <==> Accepted(p, limit, trace, j))
                            && (key in m ==> m[key] == trace[j].at)
            case None => key !in m
  {
    hide Accepted;
    LatestBeginIsLatest(p, trace, |trace|, key);
    if trace != [] {
      var n := |trace| - 1;
      MapMeaning(p, limit, trace[..n], key);
      LatestBeginOfPrefix(p, trace, n, n, key);
      LatestBeginIsLatest(p, trace, n, key);
      if LatestBegin(p, trace, n, key).Some? {
        AcceptedInPrefix(p, limit, trace, n, LatestBegin(p, trace, n, key).value);
      }
      AcceptedLast(p, limit, trace);
    }
  }

  lemma {:induction false} AcceptedLast(p: Program, limit: Option<nat>, trace: seq<Hook>)
    requires trace != []
    ensures Accepted(p, limit, trace, |trace| - 1)
       <==> var m := Run(p, limit, trace[..|trace| - 1]).start;
            trace[|trace| - 1].key in m || limit.None? || |m| < limit.value
  {
  }

  lemma {:induction false} MapStaysSmall(p: Program, limit: nat, trace: seq<Hook>)
    ensures |Run(p, Some(limit), trace).start| <= limit
  {
    if trace != [] {
      var n := |trace| - 1;
      MapStaysSmall(p, limit, trace[..n]);
      var m, key := Run(p, Some(limit), trace[..n]).start, trace[n].key;
      if trace[n].End? {
        assert (m - {key}).Keys <= m.Keys;
        SmallerKeys(m - {key}, m);
      } else if key in m {
        assert m[key := trace[n].at].Keys == m.Keys;
      } else {
        assert m[key := trace[n].at].Keys == m.Keys + {key};
      }
    }
  }

  lemma {:induction false} SmallerKeys(a: map<Word, Word>, b: map<Word, Word>)
    requires a.Keys <= b.Keys
    ensures |a| <= |b|
  {
    var rest := b.Keys - a.Keys;
    assert b.Keys == a.Keys + rest;
  }

  /** Main result: a hook reports exactly when it is an end with room in the ring
      buffer whose key has an open, accepted begin at least minLatency earlier, and it
      reports the time since that begin. */
  lemma {:induction false} ReportMeaning(p: Program, limit: Option<nat>, trace: seq<Hook>, i: nat, r: Report)
    requires i < |trace|
    ensures (r in Run(p, limit, trace).reports && r.step == i)
       <==> && trace[i].End? && trace[i].room && r.step == i && r.key == trace[i].key
            && match LatestBegin(p, trace, i, r.key)
               case Some(j) => && j < i && Accepted(p, limit, trace, j)
                               && r.latency == WrapSub(trace[i].at, trace[j].at) >= p.minLatency
               case None => false
  {
    var n := |trace| - 1;
    StepsBelow(p, limit, trace[..n]);
    if i < n {
      hide Accepted;
      ReportMeaning(p, limit, trace[..n], i, r);
      LatestBeginOfPrefix(p, trace, i, n, r.key);
      LatestBeginIsLatest(p, trace, i, r.key);
      if LatestBegin(p, trace, i, r.key).Some? {
        AcceptedInPrefix(p, limit, trace, n, LatestBegin(p, trace, i, r.key).value);
      }
    } else {
      LastReport(p, limit, trace, i, r);
    }
  }

  lemma {:induction false} LastReport(p: Program, limit: Option<nat>, trace: seq<Hook>, i: nat, r: Report)
    requires i + 1 == |trace|
    requires forall t :: t in Run(p, limit, trace[..i]).reports ==> t.step < i
    ensures (r in Run(p, limit, trace).reports && r.step == i)
       <==> && trace[i].End? && trace[i].room && r.step == i && r.key == trace[i].key
            && match LatestBegin(p, trace, i, r.key)
               case Some(j) => && j < i && Accepted(p, limit, trace, j)
                               && r.latency == WrapSub(trace[i].at, trace[j].at) >= p.minLatency
               case None => false
  {
    hide Accepted;
    var key := trace[i].key;
    LatestBeginOfPrefix(p, trace, i, i, key);
    LatestBeginIsLatest(p, trace, i, key);
    MapMeaning(p, limit, trace[..i], key);
    if LatestBegin(p, trace, i, key).Some? {
      AcceptedInPrefix(p, limit, trace, i, LatestBegin(p, trace, i, key).value);
    }
  }

  lemma {:induction false} StepsBelow(p: Program, limit: Option<nat>, trace: seq<Hook>)
    ensures forall r :: r in Run(p, limit, trace).reports ==> r.step < |trace|
  {
    if trace != [] {
      StepsBelow(p, limit, trace[..|trace| - 1]);
    }
  }

  /** With the clock never going back, a latency is the plain difference. */
  lemma {:induction false} LatencyIsElapsed(p: Program, limit: Option<nat>, trace: seq<Hook>, r: Report)
    requires forall i, j :: 0 <= i < j < |trace| ==> trace[i].at <= trace[j].at
    requires r in Run(p, limit, trace).reports
    ensures r.step < |trace|
    ensures var j := LatestBegin(p, trace, r.step, r.key);
            j.Some? && j.value < r.step && r.latency == trace[r.step].at - trace[j.value].at
  {
    StepsBelow(p, limit, trace);
    ReportMeaning(p, limit, trace, r.step, r);
    LatestBeginIsLatest(p, trace, r.step, r.key);
  }

  /** No begin is reported twice. */
  lemma {:induction false} BeginUsedOnce(p: Program, limit: Option<nat>, trace: seq<Hook>, r: Report, t: Report)
    requires r in Run(p, limit, trace).reports && t in Run(p, limit, trace).reports
    requires r.step < |trace| && t.step < |trace|
    requires LatestBegin(p, trace, r.step, r.key) == LatestBegin(p, trace, t.step, t.key)
    ensures r == t
  {
    ReportMeaning(p, limit, trace, r.step, r);
    ReportMeaning(p, limit, trace, t.step, t);
    LatestBeginIsLatest(p, trace, r.step, r.key);
    LatestBeginIsLatest(p, trace, t.step, t.key);
  }

  // ---- The bounded map against the ideal one ----

  predicate Subsequence<T(==)>(a: seq<T>, b: seq<T>) {
    a == [] ||
    (b != [] &&
     ((a[|a| - 1] == b[|b| - 1] && Subsequence(a[..|a| - 1], b[..|b| - 1]))
      || Subsequence(a, b[..|b| - 1])))
  }

  ghost predicate Submap(a: map<Word, Word>, b: map<Word, Word>) {
    forall k :: k in a ==> k in b && a[k] == b[k]
  }

  lemma {:induction false} BoundedMapIsSubmap(p: Program, limit: nat, trace: seq<Hook>)
    ensures Submap(Run(p, Some(limit), trace).start, Run(p, None, trace).start)
  {
    if trace != [] {
      BoundedMapIsSubmap(p, limit, trace[..|trace| - 1]);
    }
  }

  lemma {:induction false} SubsequenceGrows<T>(a: seq<T>, b: seq<T>, x: T)
    requires Subsequence(a, b)
    ensures Subsequence(a, b + [x]) && Subsequence(a + [x], b + [x])
  {
    assert (b + [x])[..|b|] == b && (a + [x])[..|a|] == a;
  }

  /** The bound only loses reports: what remains are the ideal reports, unchanged and
      in order. */
  lemma {:induction false} BoundOnlyLoses(p: Program, limit: nat, trace: seq<Hook>)
    ensures Subsequence(Run(p, Some(limit), trace).reports, Run(p, None, trace).reports)
  {
    if trace != [] {
      var n := |trace| - 1;
      var before := trace[..n];
      BoundOnlyLoses(p, limit, before);
      BoundedMapIsSubmap(p, limit, before);
      var a, b := Run(p, Some(limit), before), Run(p, None, before);
      if trace[n].End? {
        var r := OnEnd(p, b.start, n, trace[n].key, trace[n].at, trace[n].room);
        if r.Some? {
          SubsequenceGrows(a.reports, b.reports, r.value);
        }
      }
    }
  }

  /** It loses nothing while the ideal map never outgrows it. */
  lemma {:induction false} BoundLosesNothing(p: Program, limit: nat, trace: seq<Hook>)
    requires forall n :: 0 <= n <= |trace| ==> |Run(p, None, trace[..n]).start| <= limit
    ensures Run(p, Some(limit), trace) == Run(p, None, trace)
  {
    if trace != [] {
      var n := |trace| - 1;
      var before := trace[..n];
      forall k | 0 <= k <= n
        ensures |Run(p, None, before[..k]).start| <= limit
      {
        assert before[..k] == trace[..k];
      }
      BoundLosesNothing(p, limit, before);
      var m, key := Run(p, None, before).start, trace[n].key;
      assert trace[..n + 1] == trace;
      if trace[n].Begin? && key !in m {
        assert m[key := trace[n].at].Keys == m.Keys + {key};
      }
    }
  }
}
