/** Per-(syscall, comm) latency aggregation over a bounded LRU of entry objects. */
module SyscallCollector {
  import opened Recency
  import opened LruModel
  import opened Lru
  import opened HistogramModel
  import opened Histogram
  import opened Aggregation
  import opened Tracking
  import opened Percentiles
  import opened Sorting

  const DEFAULT_KEY_CAP := 4096
  const MAX_ENTRIES_PER_SNAPSHOT := 64

  datatype SyscallKey = SyscallKey(nr: nat, comm: string)

  datatype SyscallEvent = SyscallEvent(nr: nat, comm: string, latencyNs: Word, ret: nat)

  /** A return value in [-4095, -1], seen as a uint32. */
  predicate IsSyscallError(ret: nat) {
    ret >= 0xFFFFF001
  }

  /** What the kernel returned, as the uint32 in which an event carries it. */
  function AsUint32(ret: int): nat
    requires -0x8000_0000 <= ret < 0x8000_0000
  {
    if ret < 0 then ret + 0x1_0000_0000 else ret
  }

  /** Errors are the return values from -4095 to -1. */
  lemma {:induction false} ErrorReturns(ret: int)
    requires -0x8000_0000 <= ret < 0x8000_0000
    ensures IsSyscallError(AsUint32(ret)) <==> -4095 <= ret <= -1
  {
  }

  /** One line of the snapshot. */
  datatype SyscallRow = SyscallRow(nr: nat, comm: string, count: nat, errorCount: nat, latency: Percentiles)

  function RowOf(k: SyscallKey, es: seq<SyscallEvent>): SyscallRow {
    SyscallRow(k.nr, k.comm, |es|, Errors(es), PercentilesOf(Latencies(es)))
  }

  /** Higher P99 first, then more events. */
  predicate RanksBefore(a: SyscallRow, b: SyscallRow) {
    if a.latency.p99 != b.latency.p99 then a.latency.p99 > b.latency.p99 else a.count > b.count
  }

  /** The rows of all tracked keys, newest first. */
  ghost predicate RowsOf(rows: seq<SyscallRow>, a: seq<Entry<SyscallKey, seq<SyscallEvent>>>) {
    && |rows| == |a|
    && forall i :: 0 <= i < |a| ==> rows[i] == RowOf(a[i].k, a[i].v)
  }

  function Latencies(es: seq<SyscallEvent>): seq<Sample> {
    if es == [] then [] else Latencies(es[..|es| - 1]) + [Counted(es[|es| - 1].latencyNs)]
  }

  function Errors(es: seq<SyscallEvent>): nat {
    if es == [] then 0 else Errors(es[..|es| - 1]) + if IsSyscallError(es[|es| - 1].ret) then 1 else 0
  }

  class SyscallEntry {
    const hist: Histogram
    var count: nat
    var errorCount: nat

    constructor ()
      ensures fresh(hist) && Absorbed([])
    {
      hist := new Histogram();
      count, errorCount := 0, 0;
    }

    /** This entry stands for exactly the events es. */
    ghost predicate Absorbed(es: seq<SyscallEvent>)
      reads this, hist
    {
      && hist.Valid()
      && hist.samples == Latencies(es)
      && count == |es|
      && errorCount == Errors(es)
    }

    method Absorb(event: SyscallEvent, ghost es: seq<SyscallEvent>)
      requires Absorbed(es)
      modifies this, hist
      ensures Absorbed(es + [event])
    {
      hist.Record(event.latencyNs);
      count := count + 1;
      if IsSyscallError(event.ret) {
        errorCount := errorCount + 1;
      }
      assert (es + [event])[..|es|] == es;
    }
  }

  /** Which entry each object of the pool belongs to. */
  type Owners = map<object, SyscallEntry>

  ghost predicate Owned(e: SyscallEntry, owner: Owners) {
    && e in owner && owner[e] == e
    && e.hist in owner && owner[e.hist] == e
  }

  /** Every entry ever made has its own objects and stands for the events it absorbed. */
  ghost predicate Pool(m: map<SyscallEntry, seq<SyscallEvent>>, owner: Owners)
    reads owner.Keys
  {
    forall e :: e in m ==> Owned(e, owner) && e.Absorbed(m[e])
  }

  function Adopted(owner: Owners, e: SyscallEntry): Owners {
    owner[e := e][e.hist := e]
  }

  /** An entry of the pool, or a new one, absorbs an event. */
  method AbsorbInPool(entry: SyscallEntry, event: SyscallEvent,
                      ghost m: map<SyscallEntry, seq<SyscallEvent>>, ghost owner: Owners)
    requires Pool(m, owner)
    requires entry in m || (entry !in owner && entry.hist !in owner && entry.Absorbed([]))
    modifies entry, entry.hist
    ensures Pool(m[entry := (if entry in m then m[entry] else []) + [event]], Adopted(owner, entry))
  {
    hide Summarize, Latencies, Errors;
    entry.Absorb(event, if entry in m then m[entry] else []);
  }

  class SyscallCollector {
    const keys: LRU<SyscallKey, SyscallEntry>
    var totalCount: nat
    ghost var trail: Trail<SyscallKey, SyscallEntry, SyscallEvent>
    ghost var owner: Owners

    ghost predicate Valid()
      reads this, keys, keys.Repr, owner.Keys
    {
      && keys.Valid()
      && this !in keys.Repr && this !in owner && keys.Repr !! owner.Keys
      && Pool(Collect(trail), owner)
      && Proper(trail, keys.cap)
      && keys.State() == Replay(trail, keys.cap)
      && totalCount == |LogOf(trail)|
    }

    constructor (keyCap: int)
      ensures Valid() && fresh(keys.Repr) && owner == map[] && LogOf(trail) == []
      ensures keys.cap == if keyCap <= 0 then 1 else keyCap
    {
      keys := new LRU(keyCap);
      totalCount := 0;
      trail, owner := Start, map[];
    }

    /** Finds the entry for key, or makes and inserts one. */
    method Locate(key: SyscallKey) returns (entry: SyscallEntry)
      requires keys.Valid()
      modifies keys.Repr
      ensures keys.Valid() && fresh(keys.Repr - old(keys.Repr))
      ensures keys.State() == Access(old(keys.State()), keys.cap, key, entry)
      ensures match Lookup(old(keys.contents), key)
              case Some(e) => entry == e
              case None => fresh(entry) && fresh(entry.hist) && entry.Absorbed([])
                           && entry !in keys.Repr && entry.hist !in keys.Repr
    {
      var found := keys.Get(key);
      if found.None? {
        entry := new SyscallEntry();
        keys.Put(key, entry);
      } else {
        entry := found.value;
      }
    }

    /** Locate, with what it means for the history. */
    method Enter(key: SyscallKey, ghost event: SyscallEvent) returns (entry: SyscallEntry)
      requires Valid()
      modifies keys.Repr
      ensures keys.Valid() && fresh(keys.Repr - old(keys.Repr))
      ensures fresh(Adopted(owner, entry).Keys - owner.Keys)
      ensures this !in keys.Repr && this !in Adopted(owner, entry) && keys.Repr !! Adopted(owner, entry).Keys
      ensures Pool(Collect(trail), owner)
      ensures entry in Collect(trail) || (entry !in owner && entry.hist !in owner && entry.Absorbed([]))
      ensures Proper(Recorded(trail, key, entry, event), keys.cap)
      ensures keys.State() == Replay(Recorded(trail, key, entry, event), keys.cap)
    {
      hide Summarize, Linked;
      if Lookup(keys.contents, key).Some? {
        HistoryFound(trail, keys.cap, key);
      }
      entry := Locate(key);
    }

    /** Counts the event, and writes it into the history. */
    method Tally(key: SyscallKey, ghost entry: SyscallEntry, event: SyscallEvent)
      requires keys.Valid()
      requires this !in keys.Repr && this !in Adopted(owner, entry) && keys.Repr !! Adopted(owner, entry).Keys
      requires var next := Recorded(trail, key, entry, event);
               && Pool(Collect(next), Adopted(owner, entry))
               && Proper(next, keys.cap)
               && keys.State() == Replay(next, keys.cap)
      requires totalCount == |LogOf(trail)|
      modifies this`totalCount, this`trail, this`owner
      ensures Valid() && owner == Adopted(old(owner), entry)
      ensures trail == Recorded(old(trail), key, entry, event)
    {
      hide Summarize, Linked;
      totalCount := totalCount + 1;
      trail := Recorded(trail, key, entry, event);
      owner := Adopted(owner, entry);
    }

    method Record(event: SyscallEvent)
      requires Valid()
      modifies this, keys.Repr, owner.Keys
      ensures Valid() && fresh(keys.Repr - old(keys.Repr)) && fresh(owner.Keys - old(owner.Keys))
      ensures LogOf(trail) == LogOf(old(trail)) + [Keyed(SyscallKey(event.nr, event.comm), event)]
    {
      var key := SyscallKey(event.nr, event.comm);
      hide Summarize, Linked;
      var entry := Enter(key, event);
      AbsorbInPool(entry, event, Collect(trail), owner);
      Tally(key, entry, event);
    }

    /** The worst keys, at most 64 of them: what the log says about every tracked
        key, ranked, and cut off only after ranking. */
    method Snapshot() returns (top: seq<SyscallRow>, total: nat, ghost all: seq<SyscallRow>)
      requires Valid()
      ensures total == |LogOf(trail)|
      ensures RowsOf(all, Aggregate(LogOf(trail), keys.cap).entries)
      ensures exists ranked :: multiset(ranked) == multiset(all) && Sorted(ranked, RanksBefore)
                && top == Take(ranked, MAX_ENTRIES_PER_SNAPSHOT)
    {
      total := totalCount;
      var rows := Rows();
      all := rows;
      var ranked := SortSlice(rows, RanksBefore);
      top := if |ranked| > MAX_ENTRIES_PER_SNAPSHOT then ranked[..MAX_ENTRIES_PER_SNAPSHOT] else ranked;
    }

    method Rows() returns (rows: seq<SyscallRow>)
      requires Valid()
      ensures RowsOf(rows, Aggregate(LogOf(trail), keys.cap).entries)
    {
      hide Summarize, Latencies, Errors, PercentilesOf, Aggregate, Replay, Proper, Collect, Linked;
      HistoryTracks(trail, keys.cap);
      ghost var a := Aggregate(LogOf(trail), keys.cap).entries;
      var visited := keys.Range((k, v) => true);
      rows := [];
      for i := 0 to |visited|
        invariant RowsOf(rows, a[..i])
      {
        var k, entry := visited[i].k, visited[i].v;
        assert a[i] == Entry(k, Collect(trail)[entry]);
        var latency := HistogramPercentiles(entry.hist);
        rows := rows + [SyscallRow(k.nr, k.comm, entry.count, entry.errorCount, latency)];
      }
      assert a[..|a|] == a;
    }
  }

  /** The cut keeps the worst: whatever it drops is no worse than whatever it keeps. */
  lemma {:induction false} CutKeepsWorst(all: seq<SyscallRow>, ranked: seq<SyscallRow>, dropped: SyscallRow, kept: SyscallRow)
    requires multiset(ranked) == multiset(all) && Sorted(ranked, RanksBefore)
    requires multiset(all)[dropped] > multiset(Take(ranked, MAX_ENTRIES_PER_SNAPSHOT))[dropped]
    requires kept in Take(ranked, MAX_ENTRIES_PER_SNAPSHOT)
    ensures |Take(ranked, MAX_ENTRIES_PER_SNAPSHOT)| == 64
    ensures dropped.latency.p99 <= kept.latency.p99
    ensures dropped.latency.p99 == kept.latency.p99 ==> dropped.count <= kept.count
  {
    var n := MAX_ENTRIES_PER_SNAPSHOT;
    assert |ranked| > n;
    assert ranked == ranked[..n] + ranked[n..];
    assert dropped in multiset(ranked[n..]);
    var i :| 0 <= i < n && ranked[i] == kept;
    var j :| n <= j < |ranked| && ranked[j] == dropped;
  }
}
