/** Run-queue delays, once for the whole host and once per (pid, comm) over a bounded
    LRU of entry objects. */
module SchedCollector {
  import opened Recency
  import opened LruModel
  import opened Lru
  import opened HistogramModel
  import opened Histogram
  import opened Aggregation
  import opened Tracking
  import opened Percentiles
  import opened Sorting

  const MAX_ENTRIES_PER_SNAPSHOT := 16

  datatype SchedKey = SchedKey(pid: nat, comm: string)

  datatype SchedEvent = SchedEvent(pid: nat, comm: string, delayNs: Word)

  /** One line of the snapshot. */
  datatype SchedRow = SchedRow(pid: nat, comm: string, count: nat, delay: Percentiles)

  /** A line that may get into the snapshot, ranked by its percentile as a uint64, before
      that becomes a duration. */
  datatype Candidate = Candidate(p99: nat, row: SchedRow)

  function CandidateOf(k: SchedKey, es: seq<SchedEvent>): Candidate {
    Candidate(PercentileOf(Summarize(Delays(es)), 99.0),
              SchedRow(k.pid, k.comm, |es|, PercentilesOf(Delays(es))))
  }

  predicate RanksBefore(a: Candidate, b: Candidate) {
    a.p99 > b.p99
  }

  /** Descending percentiles. */
  ghost predicate SlowestFirst(cs: seq<Candidate>) {
    forall i, j :: 0 <= i < j < |cs| ==> cs[i].p99 >= cs[j].p99
  }

  /** The lines of all tracked keys, newest first. */
  ghost predicate CandidatesOf(cs: seq<Candidate>, a: seq<Entry<SchedKey, seq<SchedEvent>>>) {
    && |cs| == |a|
    && forall i :: 0 <= i < |a| ==> cs[i] == CandidateOf(a[i].k, a[i].v)
  }

  function RowsIn(cs: seq<Candidate>): (rows: seq<SchedRow>) {
    seq(|cs|, i requires 0 <= i < |cs| => cs[i].row)
  }

  function Delays(es: seq<SchedEvent>): seq<Sample> {
    if es == [] then [] else Delays(es[..|es| - 1]) + [Counted(es[|es| - 1].delayNs)]
  }

  class SchedEntry {
    const hist: Histogram
    var count: nat

    constructor ()
      ensures fresh(hist) && Absorbed([])
    {
      hist := new Histogram();
      count := 0;
    }

    /** This entry stands for exactly the events es. */
    ghost predicate Absorbed(es: seq<SchedEvent>)
      reads this, hist
    {
      && hist.Valid()
      && hist.samples == Delays(es)
      && count == |es|
    }

    method Absorb(event: SchedEvent, ghost es: seq<SchedEvent>)
      requires Absorbed(es)
      modifies this, hist
      ensures Absorbed(es + [event])
    {
      hist.Record(event.delayNs);
      count := count + 1;
      assert (es + [event])[..|es|] == es;
    }
  }

  /** Which entry each object of the pool belongs to. */
  type Owners = map<object, SchedEntry>

  ghost predicate Owned(e: SchedEntry, owner: Owners) {
    && e in owner && owner[e] == e
    && e.hist in owner && owner[e.hist] == e
  }

  /** Every entry ever made has its own objects and stands for the events it absorbed. */
  ghost predicate Pool(m: map<SchedEntry, seq<SchedEvent>>, owner: Owners)
    reads owner.Keys
  {
    forall e :: e in m ==> Owned(e, owner) && e.Absorbed(m[e])
  }

  function Adopted(owner: Owners, e: SchedEntry): Owners {
    owner[e := e][e.hist := e]
  }

  /** An entry of the pool, or a new one, absorbs an event. */
  method AbsorbInPool(entry: SchedEntry, event: SchedEvent,
                      ghost m: map<SchedEntry, seq<SchedEvent>>, ghost owner: Owners)
    requires Pool(m, owner)
    requires entry in m || (entry !in owner && entry.hist !in owner && entry.Absorbed([]))
    modifies entry, entry.hist
    ensures Pool(m[entry := (if entry in m then m[entry] else []) + [event]], Adopted(owner, entry))
  {
    hide Summarize, Delays;
    entry.Absorb(event, if entry in m then m[entry] else []);
  }

  /** The delays of a whole log, whatever their keys. */
  function AllDelays(log: seq<Keyed<SchedKey, SchedEvent>>): seq<Sample> {
    if log == [] then [] else AllDelays(log[..|log| - 1]) + [Counted(log[|log| - 1].e.delayNs)]
  }

  lemma {:induction false} OneMoreDelay(log: seq<Keyed<SchedKey, SchedEvent>>, e: Keyed<SchedKey, SchedEvent>)
    ensures AllDelays(log + [e]) == AllDelays(log) + [Counted(e.e.delayNs)]
  {
    assert (log + [e])[..|log + [e]| - 1] == log;
  }

  class SchedCollector {
    const global: Histogram
    const keys: LRU<SchedKey, SchedEntry>
    var total: nat
    ghost var trail: Trail<SchedKey, SchedEntry, SchedEvent>
    ghost var owner: Owners

    /** The keyed half, which knows nothing of the global histogram. */
    ghost predicate KeysValid()
      reads this, keys, keys.Repr, owner.Keys
    {
      && keys.Valid()
      && this !in keys.Repr && this !in owner && keys.Repr !! owner.Keys
      && Pool(Collect(trail), owner)
      && Proper(trail, keys.cap)
      && keys.State() == Replay(trail, keys.cap)
      && total == |LogOf(trail)|
    }

    ghost predicate Valid()
      reads this, global, keys, keys.Repr, owner.Keys
    {
      && KeysValid()
      && global !in keys.Repr && global !in owner
      && global.Valid() && global.samples == AllDelays(LogOf(trail))
    }

    constructor (keyCap: int)
      ensures Valid() && fresh(keys.Repr) && fresh(global) && owner == map[] && LogOf(trail) == []
      ensures keys.cap == if keyCap <= 0 then 1 else keyCap
    {
      global := new Histogram();
      keys := new LRU(keyCap);
      total := 0;
      trail, owner := Start, map[];
    }

    /** Finds the entry for key, or makes and inserts one. */
    method Locate(key: SchedKey) returns (entry: SchedEntry)
      requires keys.Valid()
      modifies keys.Repr
      ensures keys.Valid() && fresh(keys.Repr - old(keys.Repr))
      ensures keys.State() == Access(old(keys.State()), keys.cap, key, entry)
      ensures match Lookup(old(keys.contents), key)
              case Some(e) => entry == e
              case None => fresh(entry) && fresh(entry.hist) && entry.Absorbed([])
                           && entry !in keys.Repr && entry.hist !in keys.Repr
    {
      var found := keys.Get(key);
      if found.None? {
        entry := new SchedEntry();
        keys.Put(key, entry);
      } else {
        entry := found.value;
      }
    }

    /** Locate, with what it means for the history. */
    method Enter(key: SchedKey, ghost event: SchedEvent) returns (entry: SchedEntry)
      requires KeysValid()
      modifies keys.Repr
      ensures keys.Valid() && fresh(keys.Repr - old(keys.Repr))
      ensures fresh(Adopted(owner, entry).Keys - owner.Keys)
      ensures this !in keys.Repr && this !in Adopted(owner, entry) && keys.Repr !! Adopted(owner, entry).Keys
      ensures Pool(Collect(trail), owner)
      ensures entry in Collect(trail) || (entry !in owner && entry.hist !in owner && entry.Absorbed([]))
      ensures Proper(Recorded(trail, key, entry, event), keys.cap)
      ensures keys.State() == Replay(Recorded(trail, key, entry, event), keys.cap)
    {
      hide Summarize, Linked;
      if Lookup(keys.contents, key).Some? {
        HistoryFound(trail, keys.cap, key);
      }
      entry := Locate(key);
    }

    /** Counts the event, and writes it into the history. */
    method Tally(key: SchedKey, ghost entry: SchedEntry, event: SchedEvent)
      requires keys.Valid()
      requires this !in keys.Repr && this !in Adopted(owner, entry) && keys.Repr !! Adopted(owner, entry).Keys
      requires var next := Recorded(trail, key, entry, event);
               && Pool(Collect(next), Adopted(owner, entry))
               && Proper(next, keys.cap)
               && keys.State() == Replay(next, keys.cap)
      requires total == |LogOf(trail)|
      modifies this`total, this`trail, this`owner
      ensures KeysValid() && owner == Adopted(old(owner), entry)
      ensures trail == Recorded(old(trail), key, entry, event)
    {
      hide Summarize, Linked;
      total := total + 1;
      trail := Recorded(trail, key, entry, event);
      owner := Adopted(owner, entry);
    }

    /** The keyed half of Record. */
    method RecordKeyed(event: SchedEvent)
      requires KeysValid()
      modifies this, keys.Repr, owner.Keys
      ensures KeysValid() && fresh(keys.Repr - old(keys.Repr)) && fresh(owner.Keys - old(owner.Keys))
      ensures LogOf(trail) == LogOf(old(trail)) + [Keyed(SchedKey(event.pid, event.comm), event)]
    {
      var key := SchedKey(event.pid, event.comm);
      hide Summarize, Linked;
      var entry := Enter(key, event);
      AbsorbInPool(entry, event, Collect(trail), owner);
      Tally(key, entry, event);
    }

    method Record(event: SchedEvent)
      requires Valid()
      modifies this, global, keys.Repr, owner.Keys
      ensures Valid() && fresh(keys.Repr - old(keys.Repr)) && fresh(owner.Keys - old(owner.Keys))
      ensures LogOf(trail) == LogOf(old(trail)) + [Keyed(SchedKey(event.pid, event.comm), event)]
    {
      hide Summarize, Linked, Pool, Proper, Replay, Collect, LogOf, AllDelays;
      OneMoreDelay(LogOf(trail), Keyed(SchedKey(event.pid, event.comm), event));
      global.Record(event.delayNs);
      RecordKeyed(event);
    }

    /** The global percentiles, and the worst keys, at most 16 of them. */
    method Snapshot() returns (runqDelay: Percentiles, top: seq<SchedRow>, count: nat, ghost all: seq<Candidate>)
      requires Valid()
      ensures count == |LogOf(trail)|
      ensures runqDelay == PercentilesOf(AllDelays(LogOf(trail)))
      ensures CandidatesOf(all, Aggregate(LogOf(trail), keys.cap).entries)
      ensures exists ranked :: multiset(ranked) == multiset(all) && Sorted(ranked, RanksBefore) && SlowestFirst(ranked)
                && top == RowsIn(Take(ranked, MAX_ENTRIES_PER_SNAPSHOT))
    {
      hide Summarize, Linked, Pool, Proper, Replay, PercentilesOf;
      count := total;
      var globalSnap := global.Snapshot();
      runqDelay := HistogramPercentiles(globalSnap);
      var found := Candidates();
      all := found;
      var ranked := SortSlice(found, RanksBefore);
      top := RowsIn(if |ranked| > MAX_ENTRIES_PER_SNAPSHOT then ranked[..MAX_ENTRIES_PER_SNAPSHOT] else ranked);
    }

    method Candidates() returns (found: seq<Candidate>)
      requires KeysValid()
      ensures CandidatesOf(found, Aggregate(LogOf(trail), keys.cap).entries)
    {
      hide Summarize, Delays, PercentilesOf, PercentileOf, Aggregate, Replay, Proper, Collect, Linked;
      HistoryTracks(trail, keys.cap);
      ghost var a := Aggregate(LogOf(trail), keys.cap).entries;
      var visited := keys.Range((k, v) => true);
      found := [];
      for i := 0 to |visited|
        invariant CandidatesOf(found, a[..i])
      {
        var k, entry := visited[i].k, visited[i].v;
        assert a[i] == Entry(k, Collect(trail)[entry]);
        var p99 := entry.hist.Percentile(99.0);
        var delay := HistogramPercentiles(entry.hist);
        found := found + [Candidate(p99, SchedRow(k.pid, k.comm, entry.count, delay))];
      }
      assert a[..|a|] == a;
    }
  }

  // ---- The cut ----

  /** A line that does not make the snapshot is no slower than any of the sixteen that
      do. */
  lemma {:induction false} CutKeepsWorst(all: seq<Candidate>, ranked: seq<Candidate>, dropped: Candidate, kept: Candidate)
    requires multiset(ranked) == multiset(all) && SlowestFirst(ranked)
    requires multiset(all)[dropped] > multiset(Take(ranked, MAX_ENTRIES_PER_SNAPSHOT))[dropped]
    requires kept in Take(ranked, MAX_ENTRIES_PER_SNAPSHOT)
    ensures |Take(ranked, MAX_ENTRIES_PER_SNAPSHOT)| == 16
    ensures dropped.p99 <= kept.p99
  {
    var n := MAX_ENTRIES_PER_SNAPSHOT;
    assert |ranked| > n;
    assert ranked == ranked[..n] + ranked[n..];
    assert dropped in multiset(ranked[n..]);
    var i :| 0 <= i < n && ranked[i] == kept;
    var j :| n <= j < |ranked| && ranked[j] == dropped;
  }

  // ---- The global histogram against the per-key ones ----

  /** Folding the histograms of all entries together with Merge. */
  function MergeAll(es: seq<Entry<SchedKey, seq<SchedEvent>>>): (h: Summary)
    ensures |h.buckets| == BUCKETS
  {
    if es == [] then Summarize([]) else Combine(Summarize(Delays(es[0].v)), MergeAll(es[1..]))
  }

  lemma {:induction false} DelaysConcat(a: seq<Keyed<SchedKey, SchedEvent>>, b: seq<Keyed<SchedKey, SchedEvent>>)
    ensures AllDelays(a + b) == AllDelays(a) + AllDelays(b)
  {
    if b == [] {
      assert a + b == a;
    } else {
      assert (a + b)[..|a + b| - 1] == a + b[..|b| - 1];
      DelaysConcat(a, b[..|b| - 1]);
    }
  }

  lemma {:induction false} DelaysTagged(k: SchedKey, es: seq<SchedEvent>)
    ensures AllDelays(Tagged(k, es)) == Delays(es)
  {
    if es != [] {
      DelaysTagged(k, es[..|es| - 1]);
      assert Tagged(k, es)[..|es| - 1] == Tagged(k, es[..|es| - 1]);
    }
  }

  lemma {:induction false} MergeAllIsFlatten(es: seq<Entry<SchedKey, seq<SchedEvent>>>)
    ensures MergeAll(es) == Summarize(AllDelays(Flatten(es)))
  {
    if es != [] {
      MergeAllIsFlatten(es[1..]);
      DelaysTagged(es[0].k, es[0].v);
      DelaysConcat(Tagged(es[0].k, es[0].v), Flatten(es[1..]));
      MergeIsUnion(Delays(es[0].v), AllDelays(Flatten(es[1..])));
    }
  }

  lemma {:induction false} DelaysPermute(a: seq<Keyed<SchedKey, SchedEvent>>, b: seq<Keyed<SchedKey, SchedEvent>>)
    requires multiset(a) == multiset(b)
    ensures multiset(AllDelays(a)) == multiset(AllDelays(b))
    decreases |a|
  {
    if a == [] {
      assert |multiset(b)| == 0;
    } else {
      var x, rest := a[|a| - 1], a[..|a| - 1];
      assert a == rest + [x];
      assert x in multiset(b);
      var j :| 0 <= j < |b| && b[j] == x;
      var l, r := b[..j], b[j + 1..];
      assert b == l + ([x] + r);
      assert multiset(l + r) == multiset(b) - multiset{x};
      assert multiset(rest) == multiset(a) - multiset{x};
      DelaysPermute(rest, l + r);
      DelaysConcat(l, [x] + r);
      DelaysConcat([x], r);
      DelaysConcat(l, r);
      DelaysConcat(rest, [x]);
    }
  }

  /** Main result: merging every per-key histogram, and one of the delays that went
      away with evicted keys, gives the global histogram. */
  lemma {:induction false} GlobalIsMergeOfKeys(log: seq<Keyed<SchedKey, SchedEvent>>, cap: nat)
    requires cap > 0
    ensures Summarize(AllDelays(log))
         == Combine(MergeAll(Aggregate(log, cap).entries), Summarize(AllDelays(Gone(log, cap))))
  {
    var held, gone := Flatten(Aggregate(log, cap).entries), Gone(log, cap);
    Conservation(log, cap);
    assert multiset(held + gone) == multiset(log);
    DelaysPermute(log, held + gone);
    OrderIrrelevant(AllDelays(log), AllDelays(held + gone));
    DelaysConcat(held, gone);
    MergeAllIsFlatten(Aggregate(log, cap).entries);
    MergeIsUnion(AllDelays(held), AllDelays(gone));
  }

  /** With few enough keys nothing is gone, and the per-key histograms alone merge
      into the global one. */
  lemma {:induction false} GlobalIsMergeWithoutEvictions(log: seq<Keyed<SchedKey, SchedEvent>>, cap: nat)
    requires cap > 0 && |ByLastTouch(Reverse(LogKeys(log)))| <= cap
    ensures Summarize(AllDelays(log)) == MergeAll(Aggregate(log, cap).entries)
  {
    GlobalIsMergeOfKeys(log, cap);
    FewKeysKeepEverything(log, cap, SchedKey(0, ""));
    MergeAllIsFlatten(Aggregate(log, cap).entries);
    var held := AllDelays(Flatten(Aggregate(log, cap).entries));
    MergeIsUnion(held, []);
    assert held + [] == held;
  }
}
