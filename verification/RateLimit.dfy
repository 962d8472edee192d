/** The token bucket in front of the language model. Times are integer nanoseconds of
    a clock that never goes back. */
module RateLimit {

  const MINUTE: int := 60_000_000_000
  const DEFAULT_PER_MINUTE: int := 10

  datatype Bucket = Bucket(tokens: int, maxTokens: int, interval: int, lastFill: int)

  ghost predicate Good(b: Bucket) {
    0 <= b.tokens <= b.maxTokens && 0 < b.maxTokens && 0 < b.interval
  }

  function NewBucket(perMinute: int, now: int): (b: Bucket) {
    var n := if perMinute <= 0 then DEFAULT_PER_MINUTE else perMinute;
    Bucket(n, n, MINUTE, now)
  }

  /** Whole tokens earned in elapsed; none, or less, when the clock went back. */
  function Earned(b: Bucket, elapsed: int): int
    requires 0 < b.interval
  {
    b.maxTokens * elapsed / b.interval
  }

  function Refill(b: Bucket, now: int): (r: Bucket)
    requires 0 < b.interval
    ensures r.maxTokens == b.maxTokens && r.interval == b.interval
  {
    var elapsed := now - b.lastFill;
    if elapsed >= b.interval then b.(tokens := b.maxTokens, lastFill := now)
    else
      var refill := Earned(b, elapsed);
      if refill > 0 then
        b.(tokens := if b.tokens + refill > b.maxTokens then b.maxTokens else b.tokens + refill,
           lastFill := now)
      else b
  }

  function Take(b: Bucket): (r: Bucket)
    ensures r.maxTokens == b.maxTokens && r.interval == b.interval && r.lastFill == b.lastFill
  {
    if b.tokens <= 0 then b else b.(tokens := b.tokens - 1)
  }

  // ---- Runs of calls ----

  ghost predicate Ordered(start: int, times: seq<int>, end: int) {
    && start <= end
    && (forall i :: 0 <= i < |times| ==> start <= times[i] <= end)
    && (forall i, j :: 0 <= i < j < |times| ==> times[i] <= times[j])
  }

  /** The bucket after calls at these times, and how many of them were granted. */
  function Calls(b: Bucket, times: seq<int>): (r: (Bucket, nat))
    requires 0 < b.interval
    ensures r.0.maxTokens == b.maxTokens && r.0.interval == b.interval
  {
    if times == [] then (b, 0)
    else
      var n := |times| - 1;
      var before := Calls(b, times[..n]);
      var filled := Refill(before.0, times[n]);
      (Take(filled), before.1 + if filled.tokens > 0 then 1 else 0)
  }

  function Granted(b: Bucket, times: seq<int>): nat
    requires 0 < b.interval
  {
    Calls(b, times).1
  }

  lemma {:induction false} DivBounds(a: int, d: int)
    requires d > 0
    ensures a / d * d <= a < a / d * d + d
  {
  }

  lemma {:induction false} RefillGood(b: Bucket, now: int)
    requires Good(b) && b.lastFill <= now
    ensures Good(Refill(b, now)) && b.lastFill <= Refill(b, now).lastFill <= now
  {
  }

  /** In every run the tokens stay between zero and the maximum. */
  lemma {:induction false} CallsGood(b: Bucket, times: seq<int>, end: int)
    requires Good(b) && Ordered(b.lastFill, times, end)
    ensures Good(Calls(b, times).0)
    ensures b.lastFill <= Calls(b, times).0.lastFill <= if times == [] then b.lastFill else times[|times| - 1]
  {
    if times != [] {
      var n := |times| - 1;
      CallsGood(b, times[..n], end);
      RefillGood(Calls(b, times[..n]).0, times[n]);
    }
  }

  // ---- Rate ----

  /** Tokens and the fraction of one being earned, in units of 1/interval. */
  function Credit(b: Bucket, t: int): int {
    b.tokens * b.interval + b.maxTokens * (t - b.lastFill)
  }

  lemma {:induction false} MulLe(a: int, b: int, c: int)
    requires a <= b && 0 <= c
    ensures a * c <= b * c
  {
  }

  lemma {:induction false} MulAdd(a: int, b: int, c: int)
    ensures (a + b) * c == a * c + b * c
  {
  }

  /** A refill that leaves nothing being earned. */
  lemma {:induction false} FilledCredit(m: int, i: int, e: int, tokens: int, filled: int)
    requires 0 < i && 0 < m && 0 <= e && 0 <= tokens && filled <= m
    requires e >= i || filled <= tokens + m * e / i
    ensures filled * i <= tokens * i + m * e
    ensures filled * i < (m + 1) * i
  {
    MulLe(filled, m, i);
    MulAdd(m, 1, i);
    if e >= i {
      MulLe(i, e, m);
      MulLe(0, tokens, i);
    } else {
      DivBounds(m * e, i);
      MulLe(filled, tokens + m * e / i, i);
      MulAdd(tokens, m * e / i, i);
    }
  }

  /** Refilling never creates credit, and leaves less than one token being earned. */
  lemma {:induction false} RefillCredit(b: Bucket, now: int)
    requires Good(b) && b.lastFill <= now
    ensures Credit(Refill(b, now), now) <= Credit(b, now)
    ensures Credit(Refill(b, now), now) < (b.maxTokens + 1) * b.interval
    ensures b.maxTokens * (now - Refill(b, now).lastFill) < b.interval
  {
    var e, m, i := now - b.lastFill, b.maxTokens, b.interval;
    var f := Refill(b, now);
    if e >= i || Earned(b, e) > 0 {
      FilledCredit(m, i, e, b.tokens, f.tokens);
      assert f.lastFill == now;
      assert Credit(f, now) == f.tokens * i + m * 0;
    } else {
      assert f == b;
      UnearnedCredit(m, i, e, b.tokens);
    }
  }

  lemma {:induction false} UnearnedCredit(m: int, i: int, e: int, tokens: int)
    requires 0 < i && tokens <= m && m * e / i <= 0
    ensures m * e < i && tokens * i + m * e < (m + 1) * i
  {
    DivBounds(m * e, i);
    MulLe(m * e / i, 0, i);
    MulLe(tokens, m, i);
    MulAdd(m, 1, i);
  }

  /** Every granted call costs one interval of credit. */
  lemma {:induction false} CallsCredit(b: Bucket, times: seq<int>, t: int)
    requires Good(b) && Ordered(b.lastFill, times, t)
    ensures Granted(b, times) * b.interval + Credit(Calls(b, times).0, t) <= Credit(b, t)
  {
    if times != [] {
      var n := |times| - 1;
      CallsCredit(b, times[..n], t);
      CallsGood(b, times[..n], t);
      var c := Calls(b, times[..n]).0;
      var f := Refill(c, times[n]);
      RefillCredit(c, times[n]);
      RefillGood(c, times[n]);
      CreditGrows(c, times[n], t);
      CreditGrows(f, times[n], t);
      CreditOfTake(f, t);
      Distribute(Granted(b, times[..n]), b.interval);
    }
  }

  lemma {:induction false} Distribute(n: nat, i: int)
    ensures (n + 1) * i == n * i + i
  {
  }

  lemma {:induction false} CreditGrows(b: Bucket, t: int, u: int)
    ensures Credit(b, u) == Credit(b, t) + b.maxTokens * (u - t)
  {
    var m := b.maxTokens;
    assert m * (u - b.lastFill) == m * (t - b.lastFill) + m * (u - t);
  }

  lemma {:induction false} CreditOfTake(b: Bucket, t: int)
    requires Good(b)
    ensures Credit(Take(b), t) + (if b.tokens > 0 then b.interval else 0) == Credit(b, t)
  {
    var i := b.interval;
    assert (b.tokens - 1) * i == b.tokens * i - i;
  }

  /** Calls made right after a refill at the same instant see the same bucket. */
  lemma {:induction false} RefillTwice(b: Bucket, now: int)
    requires Good(b) && b.lastFill <= now
    ensures Good(Refill(b, now)) && Refill(b, now).lastFill <= now
    ensures Refill(Refill(b, now), now) == Refill(b, now)
  {
    RefillGood(b, now);
    var m := b.maxTokens;
    assert m * 0 == 0;
  }

  lemma {:induction false} CallsFromRefill(b: Bucket, times: seq<int>)
    requires Good(b) && times != [] && b.lastFill <= times[0]
    ensures Calls(Refill(b, times[0]), times) == Calls(b, times)
  {
    RefillTwice(b, times[0]);
    if |times| > 1 {
      var n := |times| - 1;
      CallsFromRefill(b, times[..n]);
    } else {
      assert times[..0] == [];
    }
  }

  lemma {:induction false} NoCalls(b: Bucket, w: int)
    requires Good(b) && 0 <= w
    ensures Granted(b, []) * b.interval < (b.maxTokens + 1) * b.interval + b.maxTokens * w
  {
    MulLe(0, w, b.maxTokens);
    MulLe(1, b.maxTokens + 1, b.interval);
  }

  /** Rate bound: in any window of length w fewer than
      maxTokens + 1 + maxTokens * w / interval calls are granted. */
  lemma {:induction false} WindowBound(b: Bucket, start: int, times: seq<int>, w: int)
    requires Good(b) && b.lastFill <= start && Ordered(start, times, start + w)
    ensures Granted(b, times) * b.interval < (b.maxTokens + 1) * b.interval + b.maxTokens * w
  {
    hide Refill, Calls, Credit;
    if times == [] {
      NoCalls(b, w);
    } else {
      var first, end := times[0], times[|times| - 1];
      CallsFromRefill(b, times);
      RefillGood(b, first);
      RefillCredit(b, first);
      MulLe(end - first, w, b.maxTokens);
      SettledBound(Refill(b, first), times, first, end);
    }
  }

  lemma {:induction false} SettledBound(f: Bucket, times: seq<int>, first: int, end: int)
    requires Good(f) && f.lastFill <= first <= end && Ordered(f.lastFill, times, end)
    ensures Granted(f, times) * f.interval <= Credit(f, first) + f.maxTokens * (end - first)
  {
    hide Calls, Credit;
    CallsCredit(f, times, end);
    CallsGood(f, times, end);
    CreditGrows(f, first, end);
    CreditPositive(Calls(f, times).0, end);
  }

  lemma {:induction false} CreditPositive(b: Bucket, t: int)
    requires Good(b) && b.lastFill <= t
    ensures Credit(b, t) >= 0
  {
    MulLe(0, t - b.lastFill, b.maxTokens);
    MulLe(0, b.tokens, b.interval);
  }

  /** In particular any closed interval sees at most twice maxTokens. */
  lemma {:induction false} AtMostTwicePerInterval(b: Bucket, start: int, times: seq<int>)
    requires Good(b) && b.lastFill <= start && Ordered(start, times, start + b.interval)
    ensures Granted(b, times) <= 2 * b.maxTokens
  {
    WindowBound(b, start, times, b.interval);
    var g, m, i := Granted(b, times), b.maxTokens, b.interval;
    MulAdd(m + 1, m, i);
    if g >= 2 * m + 1 {
      MulLe(2 * m + 1, g, i);
    }
  }

  // ---- Progress ----

  lemma {:induction false} RefusedCallsKeepBucket(b: Bucket, times: seq<int>)
    requires Good(b) && b.tokens == 0 && times != [] && Ordered(b.lastFill, times, times[|times| - 1])
    requires Granted(b, times) == 0
    ensures Calls(b, times).0 == b
    ensures b.maxTokens * (times[|times| - 1] - b.lastFill) < b.interval
  {
    var n := |times| - 1;
    if n > 0 {
      RefusedCallsKeepBucket(b, times[..n]);
    }
    assert Calls(b, times[..n]).0 == b;
    RefillGood(b, times[n]);
    RefillCredit(b, times[n]);
  }

  /** A refused caller is not starved: once one token's time has passed since a
      refusal, some call since then has been granted. */
  lemma {:induction false} Progress(b: Bucket, t: int, times: seq<int>)
    requires Good(b) && b.lastFill <= t && Refill(b, t).tokens == 0
    requires times != [] && Ordered(t, times, times[|times| - 1])
    requires b.maxTokens * (times[|times| - 1] - t) >= b.interval
    ensures Good(Refill(b, t)) && Refill(b, t).lastFill <= t
    ensures Granted(Refill(b, t), times) > 0
  {
    hide Calls, Refill;
    RefillGood(b, t);
    var f := Refill(b, t);
    var end := times[|times| - 1];
    if Granted(f, times) == 0 {
      RefusedCallsKeepBucket(f, times);
      MulLe(end - t, end - f.lastFill, b.maxTokens);
    }
  }

  // ---- "At most perMinute calls per minute" ----

  /** No calls within interval - 1 of start can be granted more than maxTokens times:
      what the half-open minute from start on promises. */
  ghost predicate MinuteIsCapped(b: Bucket, start: int)
    requires 0 < b.interval
  {
    forall times :: Ordered(start, times, start + b.interval - 1)
      ==> Granted(b, times) <= b.maxTokens
  }

  /** n calls at once take what is there. */
  lemma {:induction false} Burst(b: Bucket, n: nat, t: int)
    requires Good(b) && b.lastFill <= t && Refill(b, t) == b && n <= b.tokens
    ensures Ordered(t, seq(n, _ => t), t)
    ensures Calls(b, seq(n, _ => t)) == (b.(tokens := b.tokens - n), n)
  {
    if n > 0 {
      Burst(b, n - 1, t);
      var times := seq(n, _ => t);
      assert times[..n - 1] == seq(n - 1, _ => t);
      SettledStays(b, b.tokens - (n - 1), t);
    }
  }

  /** Whether a refill is due does not depend on the tokens left. */
  lemma {:induction false} SettledStays(b: Bucket, tokens: int, t: int)
    requires Good(b) && b.lastFill <= t && Refill(b, t) == b && 0 < tokens <= b.tokens
    ensures Refill(b.(tokens := tokens), t) == b.(tokens := tokens)
  {
  }

  lemma {:induction false} CallsConcat(b: Bucket, early: seq<int>, late: seq<int>)
    requires 0 < b.interval
    ensures Calls(b, early + late).0 == Calls(Calls(b, early).0, late).0
    ensures Granted(b, early + late) == Granted(b, early) + Granted(Calls(b, early).0, late)
  {
    if late == [] {
      assert early + late == early;
    } else {
      var all, n := early + late, |late| - 1;
      assert all[..|all| - 1] == early + late[..n];
      CallsConcat(b, early, late[..n]);
    }
  }

  /** All tokens at start, and all that are back by the end of the minute. */
  lemma {:induction false} TwoBursts(b: Bucket, start: int, end: int) returns (times: seq<int>)
    requires Good(b) && b.lastFill <= start <= end && Refill(b, start) == b
    ensures Ordered(start, times, end)
    ensures Granted(b, times) == b.tokens + Refill(b.(tokens := 0), end).tokens
    ensures b.tokens > 0 ==> times != [] && times[0] == start
  {
    hide Calls;
    var early := seq(b.tokens, _ => start);
    Burst(b, b.tokens, start);
    var c := b.(tokens := 0);
    var f := Refill(c, end);
    RefillTwice(c, end);
    var late := seq(f.tokens, _ => end);
    Burst(f, f.tokens, end);
    if late != [] {
      CallsFromRefill(c, late);
    }
    times := early + late;
    CallsConcat(b, early, late);
  }

  lemma {:induction false} TokensBack(b: Bucket, start: int)
    requires Good(b) && b.lastFill <= start && Refill(b, start) == b
    requires (b.tokens - 1) * b.interval + b.maxTokens * (start - b.lastFill - 1) >= 0
    ensures b.tokens + Refill(b.(tokens := 0), start + b.interval - 1).tokens > b.maxTokens
  {
    var t, m, i, d := b.tokens, b.maxTokens, b.interval, start - b.lastFill;
    RefillCredit(b, start);
    if d >= 1 {
      assert m * (d - 1) == m * d - m;
      assert t == 0 ==> (t - 1) * i == -i;
    } else {
      EarnedInMinute(t, m, i);
      MulLe(0, i - 1, m);
    }
  }

  /** What interval - 1 earns: at least what is above t - 1 tokens' worth of it. */
  lemma {:induction false} EarnedInMinute(t: int, m: int, i: int)
    requires 0 < i && (t - 1) * i - m >= 0
    ensures t + m * (i - 1) / i > m
  {
    var r := m * (i - 1) / i;
    DivBounds(m * (i - 1), i);
    assert m * (i - 1) == m * i - m;
    MulAdd(r, 1, i);
    MulAdd(m, -(t - 1), i);
    if r + 1 <= m - (t - 1) {
      MulLe(r + 1, m - (t - 1), i);
    }
  }

  lemma {:induction false} FewEnough(g: int, t: int, m: int, i: int, d: int)
    requires 0 < i && (t - 1) * i + m * (d - 1) < 0
    requires g * i <= t * i + m * (d + (i - 1))
    ensures g <= m
  {
    MulAdd(t, -1, i);
    assert m * (d + (i - 1)) == m * (d - 1) + m * i;
    MulAdd(m, 1, i);
    if g >= m + 1 {
      MulLe(m + 1, g, i);
    }
  }

  /** A bucket that is left alone until s: all it has then, and all that is back by the
      end of the minute. */
  lemma {:induction false} LateBursts(b: Bucket, start: int, s: int, end: int) returns (times: seq<int>)
    requires Good(b) && b.lastFill <= start <= s <= end < s + b.interval
    requires Refill(b, s).tokens > 0 && Refill(b, s).lastFill == s
    ensures Ordered(start, times, end)
    ensures Granted(b, times) == Refill(b, s).tokens + b.maxTokens * (end - s) / b.interval
  {
    hide Calls, Refill;
    RefillTwice(b, s);
    times := TwoBursts(Refill(b, s), s, end);
    CallsFromRefill(b, times);
    BackBy(Refill(b, s), end);
  }

  lemma {:induction false} BackBy(f: Bucket, end: int)
    requires Good(f) && f.lastFill <= end < f.lastFill + f.interval
    ensures Refill(f.(tokens := 0), end).tokens == f.maxTokens * (end - f.lastFill) / f.interval
  {
    var m, i, e := f.maxTokens, f.interval, end - f.lastFill;
    MulLe(0, e, m);
    MulLe(e, i, m);
    DivBounds(m * e, i);
    hide Refill;
    Quotient(m * e, i, m);
    assert Refill(f.(tokens := 0), end).tokens == m * e / i by {
      Refilled(f, end);
    }
  }

  lemma {:induction false} Refilled(f: Bucket, end: int)
    requires Good(f) && f.lastFill <= end < f.lastFill + f.interval
    requires 0 <= Earned(f, end - f.lastFill) <= f.maxTokens
    ensures Refill(f.(tokens := 0), end).tokens == Earned(f, end - f.lastFill)
  {
  }

  lemma {:induction false} Quotient(a: int, i: int, m: int)
    requires 0 < i && 0 <= a <= m * i
    ensures 0 <= a / i <= m
  {
    DivBounds(a, i);
    if a / i >= m + 1 {
      MulLe(m + 1, a / i, i);
      MulAdd(m, 1, i);
    }
    if a / i <= -1 {
      MulLe(a / i, -1, i);
    }
  }

  lemma {:induction false} QuotientAtLeast(a: int, i: int, q: int)
    requires 0 < i && q * i <= a
    ensures q <= a / i
  {
    DivBounds(a, i);
    if a / i <= q - 1 {
      MulLe(a / i, q - 1, i);
      MulAdd(q, -1, i);
    }
  }

  /** All that a bucket can grant by some time is covered by its credit then. */
  lemma {:induction false} CreditCovers(b: Bucket, start: int, times: seq<int>, end: int)
    requires Good(b) && b.lastFill <= start && Ordered(start, times, end)
    ensures Granted(b, times) * b.interval <= b.tokens * b.interval + b.maxTokens * (end - b.lastFill)
  {
    hide Calls;
    CallsCredit(b, times, end);
    CallsGood(b, times, end);
    CreditPositive(Calls(b, times).0, end);
  }

  // The three reasons why a minute is capped.

  /** Tokens at start and all that the minute earns stay below maxTokens + 1. */
  predicate NextToNoCredit(b: Bucket, start: int) {
    (b.tokens - 1) * b.interval + b.maxTokens * (start - b.lastFill - 1) < 0
  }

  /** The bucket is full at start, and a minute is too short to earn another token. */
  predicate FullForOnce(b: Bucket, start: int) {
    start - b.lastFill >= b.interval && (b.maxTokens == 1 || b.interval == 1)
  }

  /** More than one token an instant, of which one was left an instant ago: whenever the
      first call comes, its refill cuts off the fraction that the last token needs. */
  ghost predicate FractionLost(b: Bucket, start: int)
    requires 0 < b.interval
  {
    && b.tokens == 1 && b.lastFill == start - 1 && b.maxTokens > b.interval
    && forall k :: 0 < k < b.interval ==> Fraction(b, k) != 0
  }

  function Fraction(b: Bucket, elapsed: int): int
    requires 0 < b.interval
  {
    b.maxTokens * elapsed % b.interval
  }

  /** Main result: the comment's promise of at most perMinute calls per minute holds for
      a minute that begins at start, whatever the bucket, exactly for one of these
      reasons. */
  lemma {:induction false} MinuteIsCappedIff(b: Bucket, start: int)
    requires Good(b) && b.lastFill <= start
    ensures MinuteIsCapped(b, start) <==> NextToNoCredit(b, start) || FullForOnce(b, start) || FractionLost(b, start)
  {
    hide Calls, Refill, NextToNoCredit, FullForOnce, FractionLost;
    if NextToNoCredit(b, start) || FullForOnce(b, start) || FractionLost(b, start) {
      forall times | Ordered(start, times, start + b.interval - 1)
        ensures Granted(b, times) <= b.maxTokens
      {
        StaysCapped(b, start, times);
      }
    } else {
      var times := Exceeds(b, start);
    }
  }

  lemma {:induction false} StaysCapped(b: Bucket, start: int, times: seq<int>)
    requires Good(b) && b.lastFill <= start && Ordered(start, times, start + b.interval - 1)
    requires NextToNoCredit(b, start) || FullForOnce(b, start) || FractionLost(b, start)
    ensures Granted(b, times) <= b.maxTokens
  {
    hide Calls, Refill;
    var g, m, i, d := Granted(b, times), b.maxTokens, b.interval, start - b.lastFill;
    var end := start + i - 1;
    if NextToNoCredit(b, start) {
      CreditCovers(b, start, times, end);
      FewEnough(g, b.tokens, m, i, d);
    } else if times == [] {
      assert g == 0 by {
        NoGrants(b);
      }
    } else {
      var first := times[0];
      CallsFromRefill(b, times);
      RefillGood(b, first);
      if FullForOnce(b, start) {
        FullFrom(b, first);
        CreditCovers(Refill(b, first), first, times, end);
        AtMostFull(g, m, i, end - first);
      } else {
        LosesFraction(b, start, first, times);
      }
    }
  }

  lemma {:induction false} NoGrants(b: Bucket)
    requires 0 < b.interval
    ensures Granted(b, []) == 0
  {
  }

  lemma {:induction false} FullFrom(b: Bucket, now: int)
    requires 0 < b.interval && now - b.lastFill >= b.interval
    ensures Refill(b, now) == b.(tokens := b.maxTokens, lastFill := now)
  {
  }

  lemma {:induction false} AtMostFull(g: int, m: int, i: int, e: int)
    requires 0 < i && 0 < m && 0 <= e < i && (m == 1 || i == 1)
    requires g * i <= m * i + m * e
    ensures g <= m
  {
    if i > 1 && g >= 2 {
      MulLe(2, g, i);
    }
  }

  /** A refill that happens before the bucket is full by itself. */
  lemma {:induction false} PartlyFull(b: Bucket, now: int)
    requires Good(b) && 0 <= now - b.lastFill < b.interval && b.maxTokens * (now - b.lastFill) >= b.interval
    ensures Earned(b, now - b.lastFill) >= 1
    ensures var sum := b.tokens + Earned(b, now - b.lastFill);
            Refill(b, now) == b.(tokens := (if sum > b.maxTokens then b.maxTokens else sum), lastFill := now)
  {
    QuotientAtLeast(b.maxTokens * (now - b.lastFill), b.interval, 1);
  }

  lemma {:induction false} LosesFraction(b: Bucket, start: int, first: int, times: seq<int>)
    requires Good(b) && FractionLost(b, start) && times != [] && times[0] == first
    requires Ordered(start, times, start + b.interval - 1)
    ensures Granted(b, times) <= b.maxTokens
  {
    hide Calls, Refill;
    var g, m, i, k := Granted(b, times), b.maxTokens, b.interval, first - b.lastFill;
    var end := start + i - 1;
    var f := Refill(b, first);
    CallsFromRefill(b, times);
    RefillGood(b, first);
    if k == i {
      FullFrom(b, first);
      CreditCovers(f, first, times, end);
      assert m * 0 == 0;
      Divided(g, m, i);
    } else {
      MulLe(1, k, m);
      PartlyFull(b, first);
      CreditCovers(f, first, times, end);
      assert Fraction(b, k) != 0;
      MulLe(f.tokens, 1 + Earned(b, k), i);
      FractionNeeded(g, m, i, k, f.tokens);
    }
  }

  lemma {:induction false} Divided(g: int, m: int, i: int)
    requires 0 < i && g * i <= m * i
    ensures g <= m
  {
    if g >= m + 1 {
      MulLe(m + 1, g, i);
      MulAdd(m, 1, i);
    }
  }

  lemma {:induction false} FractionNeeded(g: int, m: int, i: int, k: int, tokens: int)
    requires 0 < k < i && m * k % i != 0
    requires tokens * i <= (1 + m * k / i) * i
    requires g * i <= tokens * i + m * (i - k)
    ensures g <= m
  {
    var q := m * k / i;
    assert q * i < m * k by {
      DivBounds(m * k, i);
    }
    MulAdd(1, q, i);
    assert m * (i - k) == m * i - m * k;
    MulAdd(m, 1, i);
    if g >= m + 1 {
      MulLe(m + 1, g, i);
    }
  }

  /** Otherwise some calls break the promise: at start, when the bucket is full, or when
      a whole number of tokens has been earned. */
  lemma {:induction false} Exceeds(b: Bucket, start: int) returns (times: seq<int>)
    requires Good(b) && b.lastFill <= start
    requires !NextToNoCredit(b, start) && !FullForOnce(b, start) && !FractionLost(b, start)
    ensures Ordered(start, times, start + b.interval - 1) && Granted(b, times) > b.maxTokens
  {
    hide Calls, Refill, Ordered;
    var t, m, i, d := b.tokens, b.maxTokens, b.interval, start - b.lastFill;
    var end := start + i - 1;
    if d >= i {
      FullFrom(b, start);
      times := LateBursts(b, start, start, end);
      EarnedAgain(m, i);
    } else if m * d < i {
      NothingDue(b, start);
      times := TwoBursts(b, start, end);
      TokensBack(b, start);
    } else if m * (d - 1) >= i {
      assert d >= 1;
      FullFrom(b, b.lastFill + i);
      times := LateBursts(b, start, b.lastFill + i, end);
      QuotientAtLeast(m * (d - 1), i, 1);
    } else {
      times := ExceedsPartlyFull(b, start);
    }
  }

  lemma {:induction false} NothingDue(b: Bucket, now: int)
    requires Good(b) && 0 <= now - b.lastFill < b.interval && b.maxTokens * (now - b.lastFill) < b.interval
    ensures Refill(b, now) == b
  {
    var e := now - b.lastFill;
    DivBounds(b.maxTokens * e, b.interval);
    if Earned(b, e) >= 1 {
      MulLe(1, Earned(b, e), b.interval);
    }
  }

  lemma {:induction false} EarnedAgain(m: int, i: int)
    requires m >= 2 && i >= 2
    ensures m * (i - 1) / i >= 1
  {
    MulLe(2, m, i - 1);
    QuotientAtLeast(m * (i - 1), i, 1);
  }

  lemma {:induction false} ExceedsPartlyFull(b: Bucket, start: int) returns (times: seq<int>)
    requires Good(b) && b.lastFill <= start && start - b.lastFill < b.interval
    requires !NextToNoCredit(b, start) && !FractionLost(b, start)
    requires b.maxTokens * (start - b.lastFill - 1) < b.interval <= b.maxTokens * (start - b.lastFill)
    ensures Ordered(start, times, start + b.interval - 1) && Granted(b, times) > b.maxTokens
  {
    hide Calls, Refill, Ordered, Fraction;
    var t, m, i, d := b.tokens, b.maxTokens, b.interval, start - b.lastFill;
    TwoAtLeast(m, i, d);
    TokenLeft(t, m, i, d);
    if m > i {
      OneInstant(m, i, d);
    }
    if m > i && t == 1 {
      var k :| 0 < k < i && Fraction(b, k) == 0;
      times := ExceedsByWholeTokens(b, start, k);
    } else {
      times := ExceedsAtOnce(b, start);
    }
  }

  lemma {:induction false} ExceedsByWholeTokens(b: Bucket, start: int, k: int) returns (times: seq<int>)
    requires Good(b) && b.tokens == 1 && b.lastFill == start - 1 && b.maxTokens > b.interval
    requires 0 < k < b.interval && Fraction(b, k) == 0
    ensures Ordered(start, times, start + b.interval - 1) && Granted(b, times) > b.maxTokens
  {
    hide Calls, Refill, Ordered;
    WholeTokens(b.maxTokens, b.interval, k);
    PartlyFull(b, b.lastFill + k);
    times := LateBursts(b, start, b.lastFill + k, start + b.interval - 1);
  }

  lemma {:induction false} ExceedsAtOnce(b: Bucket, start: int) returns (times: seq<int>)
    requires Good(b) && b.tokens >= 1 && 1 <= start - b.lastFill < b.interval && b.maxTokens >= 2
    requires b.interval <= b.maxTokens * (start - b.lastFill)
    requires b.maxTokens <= b.interval || (b.tokens >= 2 && start - b.lastFill == 1)
    ensures Ordered(start, times, start + b.interval - 1) && Granted(b, times) > b.maxTokens
  {
    hide Calls, Refill, Ordered;
    PartlyFull(b, start);
    times := LateBursts(b, start, start, start + b.interval - 1);
    EarnedAgain(b.maxTokens, b.interval);
    AllBack(b.tokens, b.maxTokens, b.interval, start - b.lastFill);
  }

  lemma {:induction false} TwoAtLeast(m: int, i: int, d: int)
    requires 0 <= d < i <= m * d && 0 < m
    ensures m >= 2 && i >= 2 && d >= 1
  {
  }

  lemma {:induction false} TokenLeft(t: int, m: int, i: int, d: int)
    requires 0 <= t && (t - 1) * i + m * (d - 1) >= 0 && m * (d - 1) < i
    ensures t >= 1
  {
  }

  lemma {:induction false} OneInstant(m: int, i: int, d: int)
    requires m > i > 0 && d >= 1 && m * (d - 1) < i
    ensures d == 1
  {
    if d >= 2 {
      MulLe(1, d - 1, m);
    }
  }

  /** k instants earn whole tokens, and so do the i - k that are left of an interval. */
  lemma {:induction false} WholeTokens(m: int, i: int, k: int)
    requires 0 < k < i < m && m * k % i == 0
    ensures m * k >= i && 1 + m * k / i <= m
    ensures m * k / i + m * (i - k) / i == m
  {
    var q := m * k / i;
    MulLe(1, k, m);
    assert q * i == m * k;
    MulLe(k + 1, i, m);
    FewerThan(q, m, i);
    Remains(m, i, k, q);
    Exact(m - q, i);
  }

  lemma {:induction false} FewerThan(q: int, m: int, i: int)
    requires 0 < i && q * i < m * i
    ensures q < m
  {
    if q >= m {
      MulLe(m, q, i);
    }
  }

  lemma {:induction false} Remains(m: int, i: int, k: int, q: int)
    requires q * i == m * k
    ensures m * (i - k) == (m - q) * i
  {
    assert m * (i - k) == m * i - m * k;
    MulAdd(m, -q, i);
  }

  lemma {:induction false} Exact(q: int, i: int)
    requires 0 < i
    ensures q * i / i == q
  {
    DivBounds(q * i, i);
    QuotientAtLeast(q * i, i, q);
    MulAdd(q, 1, i);
    FewerThan(q * i / i, q + 1, i);
  }

  /** Two roundings down lose at most one token. */
  lemma {:induction false} AllBack(t: int, m: int, i: int, d: int)
    requires 0 < i && 1 <= d && 1 <= t && i <= m * d && 0 < m
    requires m <= i || (t >= 2 && d == 1)
    ensures t + m * d / i + m * (i - 1) / i > m
  {
    var q, r := m * d / i, m * (i - 1) / i;
    assert m * (i - 1) == m * i - m;
    if m <= i {
      QuotientAtLeast(m * d, i, 1);
      MulAdd(m, -1, i);
      QuotientAtLeast(m * (i - 1), i, m - 1);
    } else {
      DivBounds(m, i);
      DivBounds(m * (i - 1), i);
      MulAdd(q, r, i);
      MulAdd(q + r, 2, i);
      if q + r + 2 <= m {
        MulLe(q + r + 2, m, i);
      }
    }
  }

  /** For at most one token a nanosecond, as every real setting is: the promise holds
      for a minute that begins with an empty bucket and no second token under way, or
      with one token at the instant of a refill, or if there is only one token that is
      surely back, and for no other. */
  lemma {:induction false} MinuteIsCappedInPractice(b: Bucket, start: int)
    requires Good(b) && b.lastFill <= start && b.maxTokens <= b.interval
    ensures MinuteIsCapped(b, start)
       <==> || (b.tokens == 0 && b.maxTokens * (start - b.lastFill - 1) < b.interval)
            || (b.tokens == 1 && b.lastFill == start)
            || (b.maxTokens == 1 && start - b.lastFill >= b.interval)
  {
    MinuteIsCappedIff(b, start);
    CreditInPractice(b.tokens, b.maxTokens, b.interval, start - b.lastFill);
  }

  lemma {:induction false} CreditInPractice(t: int, m: int, i: int, d: int)
    requires 0 <= t && 0 < m <= i && 0 <= d
    ensures (t - 1) * i + m * (d - 1) < 0 <==> (t == 0 && m * (d - 1) < i) || (t == 1 && d == 0)
  {
    if t >= 1 {
      MulLe(0, t - 1, i);
      if t >= 2 {
        MulLe(1, t - 1, i);
      }
      if d >= 1 {
        MulLe(0, d - 1, m);
      }
    }
  }

  /** No setting keeps the promise from the start: a new limiter breaks it in its first
      minute, or with perMinute 1 in a minute that begins just before the first refill. */
  lemma {:induction false} NewLimiterExceeds(perMinute: int, now: int) returns (start: int, times: seq<int>)
    ensures var b := NewBucket(perMinute, now);
            && now <= start && Ordered(start, times, start + MINUTE - 1)
            && Good(b) && Granted(b, times) > b.maxTokens
  {
    var b := NewBucket(perMinute, now);
    var m := b.maxTokens;
    assert Refill(b, now) == b by {
      assert m * 0 == 0;
    }
    if m >= 2 {
      start := now;
      times := TwoBursts(b, now, now + MINUTE - 1);
      BackWithinMinute(m);
    } else {
      start := now + MINUTE - 1;
      assert Refill(b, start) == b;
      times := TwoBursts(b, start, start + MINUTE - 1);
    }
  }

  lemma {:induction false} BackWithinMinute(m: int)
    requires m >= 2
    ensures m * (MINUTE - 1) / MINUTE >= 1
  {
    DivBounds(m * (MINUTE - 1), MINUTE);
  }

  // ---- The limiter object ----

  class RateLimitedProvider {
    var tokens: int
    const maxTokens: int
    const interval: int
    var lastFill: int

    ghost function State(): Bucket
      reads this
    {
      Bucket(tokens, maxTokens, interval, lastFill)
    }

    constructor (perMinute: int, now: int)
      ensures State() == NewBucket(perMinute, now) && Good(State())
      ensures tokens == maxTokens == (if perMinute <= 0 then 10 else perMinute)
      ensures interval == 60 * 1_000_000_000 && lastFill == now
    {
      var n := if perMinute <= 0 then DEFAULT_PER_MINUTE else perMinute;
      tokens, maxTokens, interval, lastFill := n, n, MINUTE, now;
    }

    method Allow(now: int) returns (granted: bool)
      requires Good(State()) && lastFill <= now
      modifies this
      ensures Good(State()) && old(lastFill) <= lastFill <= now
      ensures State() == Take(Refill(old(State()), now))
      ensures granted <==> Refill(old(State()), now).tokens > 0
    {
      RefillGood(State(), now);
      var elapsed := now - lastFill;
      if elapsed >= interval {
        tokens := maxTokens;
        lastFill := now;
      } else {
        var refill := maxTokens * elapsed / interval;
        if refill > 0 {
          tokens := tokens + refill;
          if tokens > maxTokens {
            tokens := maxTokens;
          }
          lastFill := now;
        }
      }
      if tokens <= 0 {
        return false;
      }
      tokens := tokens - 1;
      granted := true;
    }
  }
}
