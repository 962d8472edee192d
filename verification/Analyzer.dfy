/** The analyzer: ask the cache, else the provider, and remember a success. The
    provider is a foreign call; its outcome and the times at which the clock is read
    are parameters. */
module Analyzer {
  import opened Options
  import opened FindingsKey
  import opened AnalysisCache

  /** A successful provider call: asked for at one time, stored at another. */
  datatype Success<R> = Success(findings: seq<Diagnosis>, asked: int, stored: int, response: R)

  /** The last success for the same key. */
  function LastSuccess<R>(history: seq<Success<R>>, key: string): Option<Success<R>> {
    if history == [] then None
    else if Fingerprint(history[|history| - 1].findings) == key then Some(history[|history| - 1])
    else LastSuccess(history[..|history| - 1], key)
  }

  /** The ideal cache after the successes so far. */
  function Stored<R>(history: seq<Success<R>>, ttl: int): Table<R> {
    if history == [] then map[]
    else
      var s := history[|history| - 1];
      Stored(history[..|history| - 1], ttl)[Fingerprint(s.findings) := CacheEntry(s.response, s.stored + ttl)]
  }

  lemma {:induction false} StoredNext<R>(history: seq<Success<R>>, ttl: int, s: Success<R>)
    ensures Stored(history + [s], ttl)
         == Stored(history, ttl)[Fingerprint(s.findings) := CacheEntry(s.response, s.stored + ttl)]
  {
    assert (history + [s])[..|history|] == history;
  }

  lemma {:induction false} StoredIsLast<R>(history: seq<Success<R>>, ttl: int, key: string)
    ensures match LastSuccess(history, key)
            case Some(s) => key in Stored(history, ttl)
                            && Stored(history, ttl)[key] == CacheEntry(s.response, s.stored + ttl)
            case None => key !in Stored(history, ttl)
  {
    if history != [] {
      StoredIsLast(history[..|history| - 1], ttl, key);
    }
  }

  /** Times run forward through the history. */
  ghost predicate InOrder<R>(history: seq<Success<R>>, now: int) {
    && (forall i :: 0 <= i < |history| ==> history[i].asked <= history[i].stored <= now)
    && (forall i, j :: 0 <= i < j < |history| ==> history[i].stored <= history[j].asked)
  }

  /** Provider calls for the same key are more than ttl apart. */
  ghost predicate Spaced<R>(history: seq<Success<R>>, ttl: int) {
    forall i, j :: 0 <= i < j < |history|
        && Fingerprint(history[i].findings) == Fingerprint(history[j].findings)
      ==> history[j].asked > history[i].stored + ttl
  }

  lemma {:induction false} LastSuccessIsLatest<R>(history: seq<Success<R>>, key: string, i: nat)
    requires i < |history| && Fingerprint(history[i].findings) == key
    requires forall j, k :: 0 <= j < k < |history| ==> history[j].stored <= history[k].stored
    ensures LastSuccess(history, key).Some? && history[i].stored <= LastSuccess(history, key).value.stored
  {
    if Fingerprint(history[|history| - 1].findings) != key {
      LastSuccessIsLatest(history[..|history| - 1], key, i);
    }
  }

  lemma {:induction false} InOrderLater<R>(history: seq<Success<R>>, now: int, later: int)
    requires InOrder(history, now) && now <= later
    ensures InOrder(history, later)
  {
  }

  /** Another success keeps the spacing when the cache had no answer to give. */
  lemma {:induction false} MissKeepsSpacing<R>(history: seq<Success<R>>, ttl: int, s: Success<R>)
    requires InOrder(history, s.asked) && Spaced(history, ttl) && s.asked <= s.stored
    requires Answer(Stored(history, ttl), Fingerprint(s.findings), s.asked).None?
    ensures InOrder(history + [s], s.stored) && Spaced(history + [s], ttl)
  {
    var key := Fingerprint(s.findings);
    StoredIsLast(history, ttl, key);
    forall i | 0 <= i < |history| && Fingerprint(history[i].findings) == key
      ensures s.asked > history[i].stored + ttl
    {
      LastSuccessIsLatest(history, key, i);
    }
  }

  /** With clean rule names a cached answer is the answer to the same findings. */
  lemma {:induction false} HitIsForSameFindings<R>(history: seq<Success<R>>, findings: seq<Diagnosis>)
    requires LastSuccess(history, Fingerprint(findings)).Some?
    requires forall i :: 0 <= i < |findings| ==> Clean(findings[i].rule)
    requires forall h, i :: 0 <= h < |history| && 0 <= i < |history[h].findings| ==> Clean(history[h].findings[i].rule)
    ensures var s := LastSuccess(history, Fingerprint(findings)).value;
            s in history && s.findings == findings
  {
    var n := |history| - 1;
    if Fingerprint(history[n].findings) == Fingerprint(findings) {
      FingerprintInjective(history[n].findings, findings);
    } else {
      HitIsForSameFindings(history[..n], findings);
    }
  }

  class DefaultAnalyzer<R> {
    const cache: Cache?<R>
    ghost var history: seq<Success<R>>
    ghost var now: int

    ghost predicate Valid()
      reads this, cache
    {
      cache != null ==>
        && cache.Valid() && cache.clock <= now
        && cache.ideal == Stored(history, cache.ttl)
        && InOrder(history, now)
        && Spaced(history, cache.ttl)
    }

    constructor (cache: Cache?<R>)
      requires cache != null ==> cache.Valid() && cache.ideal == map[]
      ensures Valid() && history == [] && this.cache == cache
      ensures cache != null ==> now == cache.clock
    {
      this.cache := cache;
      history := [];
      now := if cache != null then cache.clock else 0;
    }

    /** outcome is what the provider would answer if it were called; a failure reaches
        the caller and is not remembered. */
    method Analyze(findings: seq<Diagnosis>, asked: int, stored: int, later: int, outcome: Option<R>)
      returns (response: Option<R>, called: bool)
      requires Valid() && now <= asked <= stored <= later
      modifies this, cache
      ensures Valid() && now == later
      ensures called <==> cache == null || Answer(Stored(old(history), cache.ttl), Fingerprint(findings), asked).None?
      ensures !called ==> response == Answer(Stored(old(history), cache.ttl), Fingerprint(findings), asked)
      ensures called ==> response == outcome
      ensures history == old(history) + if called && outcome.Some?
                                        then [Success(findings, asked, stored, outcome.value)] else []
    {
      hide InOrder, Spaced, OnlyExpiredMissing, Fingerprint, LastSuccess, Stored, Answer;
      var fingerprint := FindingsFingerprint(findings);
      if cache != null {
        InOrderLater(history, now, later);
        InOrderLater(history, now, asked);
        var cached := cache.Get(fingerprint, asked);
        if cached.Some? {
          now := later;
          return cached, false;
        }
      }
      if outcome.None? {
        now := later;
        return None, true;
      }
      ghost var s := Success(findings, asked, stored, outcome.value);
      if cache != null {
        MissKeepsSpacing(history, cache.ttl, s);
        StoredNext(history, cache.ttl, s);
        cache.Set(fingerprint, outcome.value, stored, later);
        InOrderLater(history + [s], stored, later);
      }
      history := history + [s];
      now := later;
      return outcome, true;
    }
  }

  // ---- Calls that overlap ----

  /** Analyze holds no lock from asking the cache to storing the answer, so the steps of
      several calls may interleave. A call that finds an answer stores none. */
  datatype Step<R> = Ask(call: nat, findings: seq<Diagnosis>, at: int) | Store(call: nat, success: Success<R>)

  function Time<R>(step: Step<R>): int {
    match step
    case Ask(_, _, at) => at
    case Store(_, success) => success.stored
  }

  /** What has been stored so far. */
  function Successes<R>(steps: seq<Step<R>>): seq<Success<R>> {
    if steps == [] then []
    else
      var front, last := Successes(steps[..|steps| - 1]), steps[|steps| - 1];
      if last.Store? then front + [last.success] else front
  }

  /** Asked at step a, the cache had no answer. */
  ghost predicate Missed<R>(steps: seq<Step<R>>, ttl: int, a: nat)
    requires a < |steps| && steps[a].Ask?
  {
    Answer(Stored(Successes(steps[..a]), ttl), Fingerprint(steps[a].findings), steps[a].at).None?
  }

  /** What step j stores belongs to the question that its call asked at step a. */
  ghost predicate Answers<R>(steps: seq<Step<R>>, ttl: int, a: nat, j: nat)
    requires a < |steps| && j < |steps| && steps[j].Store?
  {
    && steps[a].Ask? && steps[a].call == steps[j].call
    && steps[a].findings == steps[j].success.findings && steps[a].at == steps[j].success.asked
    && Missed(steps, ttl, a)
  }

  ghost predicate Legal<R>(steps: seq<Step<R>>, ttl: int) {
    && (forall i, j :: 0 <= i < j < |steps| ==> Time(steps[i]) <= Time(steps[j]))
    && (forall a, b :: 0 <= a < b < |steps| && steps[a].Ask? && steps[b].Ask? ==> steps[a].call != steps[b].call)
    && (forall j :: 0 <= j < |steps| && steps[j].Store? ==> exists a :: 0 <= a < j && Answers(steps, ttl, a, j))
  }

  lemma {:induction false} ExpiresNoEarlier<R>(steps: seq<Step<R>>, ttl: int, i: nat)
    requires i < |steps| && steps[i].Store?
    requires forall j, k :: 0 <= j < k < |steps| ==> Time(steps[j]) <= Time(steps[k])
    ensures var table, key := Stored(Successes(steps), ttl), Fingerprint(steps[i].success.findings);
            key in table && table[key].expiresAt >= steps[i].success.stored + ttl
  {
    hide Fingerprint, Stored;
    var n := |steps| - 1;
    assert Time(steps[i]) <= Time(steps[n]);
    if steps[n].Store? {
      StoredNext(Successes(steps[..n]), ttl, steps[n].success);
    }
    if i < n {
      ExpiresNoEarlier(steps[..n], ttl, i);
    }
  }

  lemma {:induction false} MissedIsLater<R>(steps: seq<Step<R>>, ttl: int, i: nat, a: nat)
    requires i < a < |steps| && steps[i].Store? && steps[a].Ask? && Missed(steps, ttl, a)
    requires Fingerprint(steps[i].success.findings) == Fingerprint(steps[a].findings)
    requires forall j, k :: 0 <= j < k < |steps| ==> Time(steps[j]) <= Time(steps[k])
    ensures steps[a].at > steps[i].success.stored + ttl
  {
    hide Fingerprint, Stored, Successes;
    ExpiresNoEarlier(steps[..a], ttl, i);
  }

  /** Two successes for the same key are more than ttl apart exactly when the later call
      asked after the earlier one had stored its answer, that is, when they do not
      overlap. */
  lemma {:induction false} ApartIff<R>(steps: seq<Step<R>>, ttl: int, i: nat, a: nat, j: nat)
    requires Legal(steps, ttl) && ttl >= 0 && i < j < |steps| && a < j
    requires steps[i].Store? && steps[j].Store? && steps[a].Ask? && steps[a].call == steps[j].call
    requires Fingerprint(steps[i].success.findings) == Fingerprint(steps[j].success.findings)
    ensures steps[j].success.asked > steps[i].success.stored + ttl <==> i < a
  {
    hide Missed, Fingerprint;
    var asked :| 0 <= asked < j && Answers(steps, ttl, asked, j);
    assert asked == a;
    if i < a {
      MissedIsLater(steps, ttl, i, a);
    } else {
      assert Time(steps[a]) <= Time(steps[i]);
    }
  }

  /** Two calls that both ask before either stores are legal: the provider is called
      twice at once for the same findings. */
  lemma {:induction false} OverlapIsLegal<R>(findings: seq<Diagnosis>, now: int, ttl: int, response: R)
    ensures var success := Success(findings, now, now, response);
            Legal([Ask(0, findings, now), Ask(1, findings, now), Store(0, success), Store(1, success)], ttl)
  {
    var success := Success(findings, now, now, response);
    var steps := [Ask(0, findings, now), Ask(1, findings, now), Store(0, success), Store(1, success)];
    assert steps[..0] == [] && steps[..1] == [Ask(0, findings, now)];
    NothingStored(steps[..0], ttl);
    NothingStored(steps[..1], ttl);
    hide Successes, Stored, Fingerprint;
    assert Answers(steps, ttl, 0, 2) && Answers(steps, ttl, 1, 3);
  }

  lemma {:induction false} NothingStored<R>(steps: seq<Step<R>>, ttl: int)
    requires forall i :: 0 <= i < |steps| ==> steps[i].Ask?
    ensures Successes(steps) == [] && Stored(Successes(steps), ttl) == map[]
  {
    if steps != [] {
      NothingStored(steps[..|steps| - 1], ttl);
    }
  }
}
