/** The TTL cache of analyses, which throws expired entries out only now and then. */
module AnalysisCache {
  import opened Options

  datatype CacheEntry<R> = CacheEntry(response: R, expiresAt: int)

  type Table<R> = map<string, CacheEntry<R>>

  /** What a table answers at a given time. */
  function Answer<R>(t: Table<R>, key: string, now: int): Option<R> {
    if key in t && now <= t[key].expiresAt then Some(t[key].response) else None
  }

  function Unexpired<R>(t: Table<R>, now: int): Table<R> {
    map k | k in t && now <= t[k].expiresAt :: t[k]
  }

  /** t is the ideal table without some entries that had expired before clock. */
  ghost predicate OnlyExpiredMissing<R>(t: Table<R>, ideal: Table<R>, clock: int) {
    && (forall k :: k in t ==> k in ideal && t[k] == ideal[k])
    && (forall k :: k in ideal && k !in t ==> ideal[k].expiresAt < clock)
  }

  /** So from clock on both give the same answers: nobody can tell when, or whether,
      an expired entry was thrown out. */
  lemma {:induction false} EvictionUnobservable<R>(t: Table<R>, ideal: Table<R>, clock: int, key: string, now: int)
    requires OnlyExpiredMissing(t, ideal, clock) && clock <= now
    ensures Answer(t, key, now) == Answer(ideal, key, now)
  {
  }

  class Cache<R> {
    var entries: Table<R>
    const ttl: int
    ghost var ideal: Table<R>  // everything ever set, nothing thrown out
    ghost var clock: int       // the latest time at which entries were thrown out

    ghost predicate Valid()
      reads this
    {
      OnlyExpiredMissing(entries, ideal, clock)
    }

    constructor (ttl: int, ghost now: int)
      ensures Valid() && this.ttl == ttl && ideal == map[] && clock == now
    {
      this.ttl := ttl;
      entries, ideal, clock := map[], map[], now;
    }

    method Get(key: string, now: int) returns (r: Option<R>)
      requires Valid() && clock <= now
      ensures r == Answer(ideal, key, now)
    {
      EvictionUnobservable(entries, ideal, clock, key, now);
      if key !in entries {
        return None;
      }
      if now > entries[key].expiresAt {
        return None;
      }
      r := Some(entries[key].response);
    }

    method Set(key: string, response: R, now: int, later: int)
      requires Valid() && clock <= now <= later
      modifies this
      ensures Valid() && old(clock) <= clock <= later
      ensures ideal == old(ideal)[key := CacheEntry(response, now + ttl)]
      ensures var all := old(entries)[key := CacheEntry(response, now + ttl)];
              entries == if |all| <= 100 then all else Unexpired(all, later)
    {
      entries := entries[key := CacheEntry(response, now + ttl)];
      ideal := ideal[key := CacheEntry(response, now + ttl)];
      if |entries| > 100 {
        EvictExpired(later);
      }
    }

    method EvictExpired(now: int)
      requires Valid() && clock <= now
      modifies this`entries, this`clock
      ensures Valid() && clock == now
      ensures entries == Unexpired(old(entries), now)
    {
      ghost var before := entries;
      var todo := entries.Keys;
      clock := now;
      while todo != {}
        invariant todo <= before.Keys
        invariant Valid() && clock == now
        invariant forall k :: k in entries <==> k in before && (k in todo || now <= before[k].expiresAt)
        invariant forall k :: k in entries ==> entries[k] == before[k]
      {
        var k :| k in todo;
        if k in entries && now > entries[k].expiresAt {
          entries := entries - {k};
        }
        todo := todo - {k};
      }
    }
  }
}
