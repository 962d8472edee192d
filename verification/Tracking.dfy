/** From an LRU of entry objects to the per-key events those objects stand for. The
    map m says which events each entry object has absorbed. */
module Tracking {
  import opened Recency
  import opened LruModel
  import opened Aggregation

  ghost predicate Covered<K, R, E>(es: seq<Entry<K, R>>, m: map<R, seq<E>>) {
    forall i :: 0 <= i < |es| ==> es[i].v in m
  }

  ghost predicate DistinctRefs<K, R>(es: seq<Entry<K, R>>) {
    forall i, j :: 0 <= i < j < |es| ==> es[i].v != es[j].v
  }

  ghost function Absorbed<K, R, E>(es: seq<Entry<K, R>>, m: map<R, seq<E>>): (a: seq<Entry<K, seq<E>>>)
    requires Covered(es, m)
    ensures Keys(a) == Keys(es)
  {
    seq(|es|, i requires 0 <= i < |es| => Entry(es[i].k, m[es[i].v]))
  }

  lemma {:induction false} AbsorbedLookup<K, R, E>(es: seq<Entry<K, R>>, m: map<R, seq<E>>, k: K)
    requires Covered(es, m)
    ensures Lookup(Absorbed(es, m), k).Some? == Lookup(es, k).Some?
    ensures Lookup(es, k).Some?
      ==> Lookup(es, k).value in m && Lookup(Absorbed(es, m), k).value == m[Lookup(es, k).value]
  {
    if es != [] {
      AbsorbedLookup(es[1..], m, k);
      assert Absorbed(es, m)[1..] == Absorbed(es[1..], m);
    }
  }

  /** The entry found for k sits at one position, which Drop cuts out. */
  lemma {:induction false} FoundAt<K, R>(es: seq<Entry<K, R>>, k: K) returns (i: nat)
    requires NoDup(Keys(es)) && Lookup(es, k).Some?
    ensures i < |es| && es[i] == Entry(k, Lookup(es, k).value)
    ensures Drop(es, k) == es[..i] + es[i + 1..]
  {
    LookupMeaning(es, k);
    i :| 0 <= i < |es| && es[i] == Entry(k, Lookup(es, k).value);
    DropAt(es, i);
  }

  /** Looking a key up, inserting r on a miss, and letting the entry absorb e is one
      step of bounded aggregation. */
  lemma {:induction false} AbsorbHit<K, R, E>(es: seq<Entry<K, R>>, m: map<R, seq<E>>, k: K, e: E)
    requires NoDup(Keys(es)) && DistinctRefs(es) && Covered(es, m) && Lookup(es, k).Some?
    ensures var r := Lookup(es, k).value;
            var next := [Entry(k, r)] + Drop(es, k);
            && r in m && Covered(next, m) && DistinctRefs(next)
            && Absorbed(next, m[r := m[r] + [e]]) == [Entry(k, m[r] + [e])] + Drop(Absorbed(es, m), k)
            && forall x :: x in next ==> x in es
  {
    var i := FoundAt(es, k);
    var a := Absorbed(es, m);
    assert a[i].k == k;
    DropAt(a, i);
    var r := Lookup(es, k).value;
    var next := [Entry(k, r)] + Drop(es, k);
    assert forall j :: 1 <= j < |next| ==> next[j] == es[if j <= i then j - 1 else j];
    assert Absorbed(next, m[r := m[r] + [e]]) == [Entry(k, m[r] + [e])] + (a[..i] + a[i + 1..]);
  }

  lemma {:induction false} AbsorbMiss<K, R, E>(es: seq<Entry<K, R>>, m: map<R, seq<E>>, k: K, r: R, e: E)
    requires DistinctRefs(es) && Covered(es, m) && r in m && m[r] == []
    requires forall i :: 0 <= i < |es| ==> es[i].v != r
    ensures var next := [Entry(k, r)] + es;
            && Covered(next, m) && DistinctRefs(next)
            && Absorbed(next, m[r := [e]]) == [Entry(k, [e])] + Absorbed(es, m)
  {
  }

  /** One recorded event, whether its key was tracked or not. */
  lemma {:induction false} AbsorbStep<K, R, E>(c: Cache<K, R>, m: map<R, seq<E>>, cap: nat, k: K, r: R, e: E)
    requires cap > 0 && NoDup(Keys(c.entries)) && DistinctRefs(c.entries) && Covered(c.entries, m) && r in m
    requires Lookup(c.entries, k).Some? ==> r == Lookup(c.entries, k).value
    requires Lookup(c.entries, k).None?
      ==> m[r] == [] && forall i :: 0 <= i < |c.entries| ==> c.entries[i].v != r
    ensures var next := Access(c, cap, k, r);
            var m' := m[r := m[r] + [e]];
            && next.entries != [] && next.entries[0] == Entry(k, r)
            && Covered(next.entries, m') && DistinctRefs(next.entries)
            && Cache(Absorbed(next.entries, m'), next.evicted)
               == RecordStep(Cache(Absorbed(c.entries, m), c.evicted), cap, k, e)
            && forall x :: x in next.entries ==> x.v == r || x in c.entries
  {
    AbsorbedLookup(c.entries, m, k);
    if Lookup(c.entries, k).Some? {
      AbsorbHit(c.entries, m, k, e);
    } else {
      assert [] + [e] == [e];
      var kept := if |c.entries| >= cap then c.entries[..|c.entries| - 1] else c.entries;
      AbsorbMiss(kept, m, k, r, e);
      assert |c.entries| >= cap ==>
        Absorbed(kept, m) == Absorbed(c.entries, m)[..|c.entries| - 1];
    }
  }

  /** The cache of entry objects stands for the bounded aggregation of the log. */
  ghost predicate Tracks<K, R, E>(c: Cache<K, R>, m: map<R, seq<E>>, log: seq<Keyed<K, E>>, cap: nat)
    requires cap > 0
  {
    && Covered(c.entries, m)
    && DistinctRefs(c.entries)
    && Cache(Absorbed(c.entries, m), c.evicted) == Aggregate(log, cap)
  }

  lemma {:induction false} TracksFound<K, R, E>(c: Cache<K, R>, m: map<R, seq<E>>, log: seq<Keyed<K, E>>, cap: nat, k: K)
    requires cap > 0 && Tracks(c, m, log, cap) && Lookup(c.entries, k).Some?
    ensures Lookup(c.entries, k).value in m
  {
    AbsorbedLookup(c.entries, m, k);
  }

  /** Recording an event keeps the correspondence; r is the entry found for the key,
      or a new one when there is none. */
  lemma {:induction false} TracksStep<K, R, E>(c: Cache<K, R>, m: map<R, seq<E>>, log: seq<Keyed<K, E>>, cap: nat,
                            k: K, r: R, e: E)
    requires cap > 0 && Tracks(c, m, log, cap)
    requires match Lookup(c.entries, k) case Some(found) => r == found case None => r !in m
    ensures r in m || Lookup(c.entries, k).None?
    ensures var grown := if Lookup(c.entries, k).None? then m[r := []] else m;
            Tracks(Access(c, cap, k, r), grown[r := grown[r] + [e]], log + [Keyed(k, e)], cap)
  {
    TrackedContents(log, cap);
    ByLastTouchNoDup(Reverse(LogKeys(log)));
    AbsorbedLookup(c.entries, m, k);
    var grown := if Lookup(c.entries, k).None? then m[r := []] else m;
    assert Absorbed(c.entries, grown) == Absorbed(c.entries, m);
    AbsorbStep(c, grown, cap, k, r, e);
    assert (log + [Keyed(k, e)])[..|log|] == log;
  }

  // ---- The history of a collector ----

  /** The events recorded so far, each with its key and the entry object that
      absorbed it. */
  datatype Trail<K, R, E> = Start | Recorded(before: Trail<K, R, E>, k: K, r: R, e: E)

  function LogOf<K, R, E>(trail: Trail<K, R, E>): seq<Keyed<K, E>> {
    match trail
    case Start => []
    case Recorded(before, k, _, e) => LogOf(before) + [Keyed(k, e)]
  }

  /** What the LRU holds after the history. */
  ghost function Replay<K, R, E>(trail: Trail<K, R, E>, cap: nat): Cache<K, R>
    requires cap > 0
  {
    match trail
    case Start => Cache([], 0)
    case Recorded(before, k, r, _) => Access(Replay(before, cap), cap, k, r)
  }

  /** What each entry object has absorbed. */
  ghost function Collect<K, R, E>(trail: Trail<K, R, E>): map<R, seq<E>> {
    match trail
    case Start => map[]
    case Recorded(before, _, r, e) =>
      var m := Collect(before);
      m[r := (if r in m then m[r] else []) + [e]]
  }

  /** Each event used the entry found for its key, or a new one. */
  ghost predicate Proper<K, R, E>(trail: Trail<K, R, E>, cap: nat)
    requires cap > 0
  {
    match trail
    case Start => true
    case Recorded(before, k, r, _) =>
      && Proper(before, cap)
      && match Lookup(Replay(before, cap).entries, k)
         case Some(found) => r == found
         case None => r !in Collect(before)
  }

  /** The entry objects stand for the bounded aggregation of the events recorded. */
  lemma {:induction false} HistoryTracks<K, R, E>(trail: Trail<K, R, E>, cap: nat)
    requires cap > 0 && Proper(trail, cap)
    ensures Tracks(Replay(trail, cap), Collect(trail), LogOf(trail), cap)
  {
    match trail
    case Start =>
    case Recorded(before, k, r, e) =>
      HistoryTracks(before, cap);
      TracksStep(Replay(before, cap), Collect(before), LogOf(before), cap, k, r, e);
      var m := Collect(before);
      assert Lookup(Replay(before, cap).entries, k).None?
        ==> m[r := []][r := [] + [e]] == m[r := [] + [e]];
  }

  lemma {:induction false} HistoryFound<K, R, E>(trail: Trail<K, R, E>, cap: nat, k: K)
    requires cap > 0 && Proper(trail, cap) && Lookup(Replay(trail, cap).entries, k).Some?
    ensures Lookup(Replay(trail, cap).entries, k).value in Collect(trail)
  {
    HistoryTracks(trail, cap);
    TracksFound(Replay(trail, cap), Collect(trail), LogOf(trail), cap, k);
  }
}
