/** Bounded per-key aggregation: what a collector that looks its key up in an LRU,
    inserts it on a miss and adds the event to the entry still knows afterwards. */
module Aggregation {
  import opened Options
  import opened Recency
  import opened LruModel

  datatype Keyed<K, E> = Keyed(k: K, e: E)

  /** Per tracked key, newest first, the events its entry holds. */
  type Tracked<K, E> = Cache<K, seq<E>>

  function Held<K(==), E>(c: Tracked<K, E>, k: K): seq<E> {
    match Lookup(c.entries, k)
    case Some(es) => es
    case None => []
  }

  function RecordStep<K(==), E>(c: Tracked<K, E>, cap: nat, k: K, e: E): Tracked<K, E>
    requires cap > 0
  {
    PutStep(c, cap, k, Held(c, k) + [e])
  }

  function Aggregate<K(==), E>(log: seq<Keyed<K, E>>, cap: nat): Tracked<K, E>
    requires cap > 0
  {
    if log == [] then Cache([], 0)
    else RecordStep(Aggregate(log[..|log| - 1], cap), cap, log[|log| - 1].k, log[|log| - 1].e)
  }

  // ---- The same, told without a cache ----

  function LogKeys<K, E>(log: seq<Keyed<K, E>>): seq<K> {
    seq(|log|, i requires 0 <= i < |log| => log[i].k)
  }

  /** The cap most recent distinct keys of the log. */
  function RecentKeys<K(==), E>(log: seq<Keyed<K, E>>, cap: nat): seq<K> {
    Take(ByLastTouch(Reverse(LogKeys(log))), cap)
  }

  /** The events of k since it last came in from outside the recent keys. */
  function Since<K(==), E>(log: seq<Keyed<K, E>>, cap: nat, k: K): seq<E> {
    if log == [] then []
    else
      var before := log[..|log| - 1];
      var last := log[|log| - 1];
      if last.k != k then Since(before, cap, k)
      else if k in RecentKeys(before, cap) then Since(before, cap, k) + [last.e]
      else [last.e]
  }

  /** All events of k. */
  function EventsOf<K(==), E>(log: seq<Keyed<K, E>>, k: K): seq<E> {
    if log == [] then []
    else EventsOf(log[..|log| - 1], k)
         + if log[|log| - 1].k == k then [log[|log| - 1].e] else []
  }

  function Tagged<K, E>(k: K, es: seq<E>): seq<Keyed<K, E>> {
    seq(|es|, i requires 0 <= i < |es| => Keyed(k, es[i]))
  }

  /** All events the tracked entries hold, with their keys. */
  function Flatten<K, E>(es: seq<Entry<K, seq<E>>>): seq<Keyed<K, E>> {
    if es == [] then [] else Tagged(es[0].k, es[0].v) + Flatten(es[1..])
  }

  /** The events that go away when k comes in from outside a full cache. */
  function Evicted<K(==), E>(c: Tracked<K, E>, cap: nat, k: K): seq<Keyed<K, E>>
    requires cap > 0
  {
    var es := c.entries;
    if Lookup(es, k).None? && |es| >= cap then Tagged(es[|es| - 1].k, es[|es| - 1].v) else []
  }

  /** The events that went away with the entries evicted along the log. */
  function Gone<K(==), E>(log: seq<Keyed<K, E>>, cap: nat): seq<Keyed<K, E>>
    requires cap > 0
  {
    if log == [] then []
    else
      var before := log[..|log| - 1];
      Gone(before, cap) + Evicted(Aggregate(before, cap), cap, log[|log| - 1].k)
  }

  lemma {:induction false} RecentKeysStep<K, E>(log: seq<Keyed<K, E>>)
    requires log != []
    ensures Reverse(LogKeys(log)) == [log[|log| - 1].k] + Reverse(LogKeys(log[..|log| - 1]))
  {
    assert LogKeys(log)[..|log| - 1] == LogKeys(log[..|log| - 1]);
  }

  ghost predicate HoldsSince<K, E>(es: seq<Entry<K, seq<E>>>, log: seq<Keyed<K, E>>, cap: nat) {
    && Keys(es) == RecentKeys(log, cap)
    && forall k :: k in Keys(es) ==> Lookup(es, k) == Some(Since(log, cap, k))
  }

  lemma {:induction false} HeldIsSince<K, E>(c: Tracked<K, E>, log: seq<Keyed<K, E>>, cap: nat, k: K)
    requires HoldsSince(c.entries, log, cap)
    ensures Held(c, k) == if k in RecentKeys(log, cap) then Since(log, cap, k) else []
  {
    LookupMeaning(c.entries, k);
  }

  /** Main result: the tracked keys are the cap most recent, and each holds exactly
      its events since its last insertion. */
  lemma {:induction false} TrackedContents<K, E>(log: seq<Keyed<K, E>>, cap: nat)
    requires cap > 0
    ensures HoldsSince(Aggregate(log, cap).entries, log, cap)
  {
    if log != [] {
      TrackedContents(log[..|log| - 1], cap);
      TrackedStep(log, cap);
    }
  }

  lemma {:induction false} SinceStep<K, E>(log: seq<Keyed<K, E>>, c: Tracked<K, E>, cap: nat, k: K)
    requires log != [] && HoldsSince(c.entries, log[..|log| - 1], cap)
    ensures var before, last := log[..|log| - 1], log[|log| - 1];
            Since(log, cap, k) == if k == last.k then Held(c, k) + [last.e] else Since(before, cap, k)
  {
    HeldIsSince(c, log[..|log| - 1], cap, k);
    hide HoldsSince, Held, RecentKeys;
  }

  /** The contents after one more event, before they are compared with the log. */
  lemma {:induction false} RecordContents<K, E>(log: seq<Keyed<K, E>>, c: Tracked<K, E>, cap: nat)
    requires cap > 0 && log != [] && Keys(c.entries) == RecentKeys(log[..|log| - 1], cap)
    ensures var last := log[|log| - 1];
            var next := RecordStep(c, cap, last.k, last.e).entries;
            && Keys(next) == RecentKeys(log, cap)
            && Lookup(next, last.k) == Some(Held(c, last.k) + [last.e])
            && forall k :: k in Keys(next) && k != last.k ==> k in Keys(c.entries) && Lookup(next, k) == Lookup(c.entries, k)
  {
    var before, last := log[..|log| - 1], log[|log| - 1];
    var order := ByLastTouch(Reverse(LogKeys(before)));
    ByLastTouchNoDup(Reverse(LogKeys(before)));
    TouchContents(c.entries, order, cap, last.k, Held(c, last.k) + [last.e]);
    RecentKeysStep(log);
    hide Held;
  }

  lemma {:induction false} TrackedStep<K, E>(log: seq<Keyed<K, E>>, cap: nat)
    requires cap > 0 && log != []
    requires HoldsSince(Aggregate(log[..|log| - 1], cap).entries, log[..|log| - 1], cap)
    ensures HoldsSince(Aggregate(log, cap).entries, log, cap)
  {
    var c := Aggregate(log[..|log| - 1], cap);
    assert Aggregate(log, cap) == RecordStep(c, cap, log[|log| - 1].k, log[|log| - 1].e);
    RecordContents(log, c, cap);
    hide Aggregate, RecordStep, Since, RecentKeys, Held, Lookup, Keys;
    forall k | k in Keys(Aggregate(log, cap).entries)
      ensures Lookup(Aggregate(log, cap).entries, k) == Some(Since(log, cap, k))
    {
      SinceStep(log, c, cap, k);
    }
  }

  lemma {:induction false} FlattenConcat<K, E>(a: seq<Entry<K, seq<E>>>, b: seq<Entry<K, seq<E>>>)
    ensures Flatten(a + b) == Flatten(a) + Flatten(b)
  {
    if a == [] {
      assert a + b == b;
    } else {
      assert (a + b)[1..] == a[1..] + b;
      FlattenConcat(a[1..], b);
    }
  }

  lemma {:induction false} FlattenSplit<K, E>(es: seq<Entry<K, seq<E>>>, i: nat)
    requires i < |es|
    ensures multiset(Flatten(es))
         == multiset(Flatten(es[..i] + es[i + 1..])) + multiset(Tagged(es[i].k, es[i].v))
  {
    assert es == es[..i] + ([es[i]] + es[i + 1..]);
    FlattenConcat(es[..i], [es[i]] + es[i + 1..]);
    FlattenConcat([es[i]], es[i + 1..]);
    FlattenConcat(es[..i], es[i + 1..]);
    FlattenOne(es[i]);
  }

  lemma {:induction false} FlattenOne<K, E>(x: Entry<K, seq<E>>)
    ensures Flatten([x]) == Tagged(x.k, x.v)
  {
    assert [x][1..] == [];
    assert Tagged(x.k, x.v) + [] == Tagged(x.k, x.v);
  }

  /** One step adds one event to what is held, less the entry it evicts. */
  lemma {:induction false} HeldAfterRecord<K, E>(c: Tracked<K, E>, cap: nat, k: K, e: E)
    requires cap > 0 && NoDup(Keys(c.entries))
    ensures multiset(Flatten(RecordStep(c, cap, k, e).entries)) + multiset(Evicted(c, cap, k))
         == multiset(Flatten(c.entries)) + multiset{Keyed(k, e)}
  {
    var es, front := c.entries, Entry(k, Held(c, k) + [e]);
    if Lookup(es, k).Some? {
      HeldAfterHit(c, cap, k, e);
    } else {
      FlattenOne(front);
      assert Tagged(k, [] + [e]) == [Keyed(k, e)];
      if |es| >= cap {
        FlattenSplit(es, |es| - 1);
        assert es[..|es| - 1] + es[|es|..] == es[..|es| - 1];
        FlattenConcat([front], es[..|es| - 1]);
      } else {
        FlattenConcat([front], es);
      }
    }
  }

  lemma {:induction false} HeldAfterHit<K, E>(c: Tracked<K, E>, cap: nat, k: K, e: E)
    requires cap > 0 && NoDup(Keys(c.entries)) && Lookup(c.entries, k).Some?
    ensures multiset(Flatten(RecordStep(c, cap, k, e).entries)) == multiset(Flatten(c.entries)) + multiset{Keyed(k, e)}
  {
    var es, front := c.entries, Entry(k, Held(c, k) + [e]);
    assert RecordStep(c, cap, k, e).entries == [front] + Drop(es, k);
    LookupMeaning(es, k);
    var i :| 0 <= i < |es| && es[i] == Entry(k, Held(c, k));
    DropAt(es, i);
    hide RecordStep, Lookup, Drop, NoDup, Held, Flatten;
    FlattenOne(front);
    assert Tagged(k, Held(c, k) + [e]) == Tagged(k, Held(c, k)) + [Keyed(k, e)];
    FlattenSplit(es, i);
    FlattenConcat([front], es[..i] + es[i + 1..]);
  }

  /** Nothing is forgotten, counted twice or moved to another key: the events held
      and the events gone with evicted entries are the events of the log. */
  lemma {:induction false} Conservation<K, E>(log: seq<Keyed<K, E>>, cap: nat)
    requires cap > 0
    ensures multiset(Flatten(Aggregate(log, cap).entries)) + multiset(Gone(log, cap)) == multiset(log)
  {
    if log == [] {
    } else {
      var before, last := log[..|log| - 1], log[|log| - 1];
      var c := Aggregate(before, cap);
      assert log == before + [last];
      assert Aggregate(log, cap) == RecordStep(c, cap, last.k, last.e);
      assert Gone(log, cap) == Gone(before, cap) + Evicted(c, cap, last.k);
      Conservation(before, cap);
      hide Aggregate, Gone, Evicted, RecordStep, Flatten, Lookup, NoDup;
      TrackedKeysDiffer(before, cap);
      HeldAfterRecord(c, cap, last.k, last.e);
      Balance(multiset(Flatten(Aggregate(log, cap).entries)), multiset(Evicted(c, cap, last.k)),
              multiset(Flatten(c.entries)), multiset(Gone(before, cap)), multiset{last});
    }
  }

  lemma {:induction false} TrackedKeysDiffer<K, E>(log: seq<Keyed<K, E>>, cap: nat)
    requires cap > 0
    ensures NoDup(Keys(Aggregate(log, cap).entries))
  {
    TrackedContents(log, cap);
    ByLastTouchNoDup(Reverse(LogKeys(log)));
  }

  lemma {:induction false} Balance<T>(now: multiset<T>, evicted: multiset<T>, held: multiset<T>,
                                      gone: multiset<T>, added: multiset<T>)
    requires now + evicted == held + added
    ensures now + (gone + evicted) == held + gone + added
  {
    assert now + (gone + evicted) == (now + evicted) + gone;
    assert held + gone + added == (held + added) + gone;
  }

  lemma {:induction false} RecentGrows<K>(h: seq<K>, k: K)
    ensures |ByLastTouch(h)| <= |ByLastTouch([k] + h)|
    ensures k !in ByLastTouch(h) ==> |ByLastTouch(h)| < |ByLastTouch([k] + h)|
  {
    ByLastTouchNoDup(h);
    WithoutNoDup(ByLastTouch(h), k);
    assert ([k] + h)[1..] == h;
  }

  /** With at most cap distinct keys nothing is lost: every key holds all its events. */
  lemma {:induction false} FewKeysKeepEverything<K, E>(log: seq<Keyed<K, E>>, cap: nat, k: K)
    requires cap > 0 && |ByLastTouch(Reverse(LogKeys(log)))| <= cap
    ensures Since(log, cap, k) == EventsOf(log, k)
    ensures k in RecentKeys(log, cap) <==> EventsOf(log, k) != []
    ensures Gone(log, cap) == [] && Aggregate(log, cap).evicted == 0
  {
    NothingEvicted(log, cap);
    if log != [] {
      var before, last := log[..|log| - 1], log[|log| - 1];
      RecentKeysStep(log);
      RecentGrows(Reverse(LogKeys(before)), last.k);
      FewKeysKeepEverything(before, cap, k);
      ByLastTouchMembers(Reverse(LogKeys(before)), k);
      ByLastTouchMembers(Reverse(LogKeys(log)), k);
      hide ByLastTouch, Aggregate, Gone;
    }
  }

  /** Few keys never fill the cache. */
  lemma {:induction false} NothingEvicted<K, E>(log: seq<Keyed<K, E>>, cap: nat)
    requires cap > 0 && |ByLastTouch(Reverse(LogKeys(log)))| <= cap
    ensures Gone(log, cap) == [] && Aggregate(log, cap).evicted == 0
  {
    if log != [] {
      var before, last := log[..|log| - 1], log[|log| - 1];
      RecentKeysStep(log);
      RecentGrows(Reverse(LogKeys(before)), last.k);
      NothingEvicted(before, cap);
      TrackedContents(before, cap);
      var es := Aggregate(before, cap).entries;
      LookupMeaning(es, last.k);
      assert |Keys(es)| == |es|;
      hide ByLastTouch, Since, Flatten;
    }
  }

  /** One entry per event, newest first. */
  function Singles<K, E>(log: seq<Keyed<K, E>>): (es: seq<Entry<K, seq<E>>>)
    ensures |es| == |log|
  {
    seq(|log|, i requires 0 <= i < |log| => Entry(log[|log| - 1 - i].k, [log[|log| - 1 - i].e]))
  }

  lemma {:induction false} SinglesStep<K, E>(log: seq<Keyed<K, E>>)
    requires log != []
    ensures Singles(log) == [Entry(log[|log| - 1].k, [log[|log| - 1].e])] + Singles(log[..|log| - 1])
  {
  }

  lemma {:induction false} NewKey<K, E>(log: seq<Keyed<K, E>>)
    requires log != [] && NoDup(LogKeys(log))
    ensures NoDup(LogKeys(log[..|log| - 1])) && Lookup(Singles(log[..|log| - 1]), log[|log| - 1].k).None?
  {
    var n := |log| - 1;
    var before := log[..n];
    assert LogKeys(before) == LogKeys(log)[..n];
    forall i | 0 <= i < n
      ensures Keys(Singles(before))[i] != log[n].k
    {
      assert LogKeys(log)[n - 1 - i] != LogKeys(log)[n];
    }
    LookupMeaning(Singles(before), log[n].k);
  }

  /** Events of distinct keys, as many as fit, become one entry each. */
  lemma {:induction false} DistinctKeys<K, E>(log: seq<Keyed<K, E>>, cap: nat)
    requires cap > 0 && |log| <= cap && NoDup(LogKeys(log))
    ensures Aggregate(log, cap) == Cache(Singles(log), 0)
  {
    if log == [] {
      assert Singles(log) == [];
    } else {
      var before, last := log[..|log| - 1], log[|log| - 1];
      hide Singles, Lookup, NoDup, Keys;
      NewKey(log);
      DistinctKeys(before, cap);
      SinglesStep(log);
      assert Held(Aggregate(before, cap), last.k) + [last.e] == [last.e];
    }
  }
}
