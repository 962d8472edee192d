/** From seconds to an actionable duration. */
module Eta {
  import opened Options

  const SECOND := 1_000_000_000
  /** Seven days, in nanoseconds. */
  const MAX_MEANINGFUL_ETA := 7 * 24 * 3600 * SECOND

  /** Truncates to nanoseconds, and rejects what is not positive or too far away. */
  function EtaDuration(etaSecs: real): (r: Option<int>)
    ensures r.Some? <==> 1.0 <= etaSecs * SECOND as real < (MAX_MEANINGFUL_ETA + 1) as real
    ensures r.Some? ==> 0 < r.value <= MAX_MEANINGFUL_ETA
    ensures r.Some? ==> r.value as real <= etaSecs * SECOND as real < r.value as real + 1.0
  {
    if etaSecs <= 0.0 then None
    else
      var eta := (etaSecs * SECOND as real).Floor;
      if eta <= 0 || eta > MAX_MEANINGFUL_ETA then None else Some(eta)
  }

  // ---- What an ETA means ----

  /** At this rate what is left is gone in e nanoseconds, to within one, and that is
      within seven days. */
  ghost predicate GoneIn(e: int, left: real, rate: real) {
    && rate > 0.0
    && 0 < e <= 7 * 24 * 3600 * 1_000_000_000
    && rate * (e as real / 1_000_000_000.0) <= left < rate * ((e + 1) as real / 1_000_000_000.0)
  }

  /** The finite ETA of what is left, if it has one. */
  ghost predicate EtaOf(eta: Option<int>, left: real, rate: real) {
    forall e: int :: eta == Some(e) <==> GoneIn(e, left, rate)
  }

  /** Main result: where something is left and it goes, the ETA is the one time at which
      it is gone; elsewhere there is no such time. */
  lemma {:induction false} EtaIff(left: real, rate: real)
    ensures EtaOf(if rate > 0.0 && left > 0.0 then EtaDuration(left / rate) else None, left, rate)
  {
    if rate > 0.0 && left > 0.0 {
      forall e: int
        ensures EtaDuration(left / rate) == Some(e) <==> GoneIn(e, left, rate)
      {
        EtaIffAt(left, rate, e);
      }
    } else if rate > 0.0 {
      forall e: int
        ensures !GoneIn(e, left, rate)
      {
        NothingLeft(left, rate, e);
      }
    }
  }

  lemma {:induction false} EtaIffAt(left: real, rate: real, e: int)
    requires rate > 0.0 && left > 0.0
    ensures EtaDuration(left / rate) == Some(e) <==> GoneIn(e, left, rate)
  {
    hide EtaDuration;
    Covered(left, rate, SECOND as real, e as real);
    Covered(left, rate, SECOND as real, (e + 1) as real);
  }

  lemma {:induction false} NothingLeft(left: real, rate: real, e: int)
    requires rate > 0.0 && left <= 0.0
    ensures !GoneIn(e, left, rate)
  {
    if e > 0 {
      var t := e as real / 1_000_000_000.0;
      assert t > 0.0;
      assert rate * t > 0.0;
    }
  }

  /** When a remaining distance covered at a given rate has a meaningful ETA, and how
      near the ETA comes. */
  lemma {:induction false} EtaMeaning(remaining: real, rate: real)
    requires rate > 0.0 && remaining > 0.0
    ensures var eta := EtaDuration(remaining / rate);
            && (eta.Some? <==> rate * (1.0 / SECOND as real) <= remaining
                               < rate * ((MAX_MEANINGFUL_ETA + 1) as real / SECOND as real))
            && (eta.Some? ==> rate * (eta.value as real / SECOND as real) <= remaining
                              < rate * ((eta.value as real + 1.0) / SECOND as real))
  {
    hide EtaDuration;
    EtaExists(remaining, rate);
    EtaIsNear(remaining, rate);
  }

  lemma {:induction false} EtaExists(remaining: real, rate: real)
    requires rate > 0.0 && remaining > 0.0
    ensures EtaDuration(remaining / rate).Some? <==>
              rate * (1.0 / SECOND as real) <= remaining < rate * ((MAX_MEANINGFUL_ETA + 1) as real / SECOND as real)
  {
    hide EtaDuration;
    Covered(remaining, rate, SECOND as real, 1.0);
    Covered(remaining, rate, SECOND as real, (MAX_MEANINGFUL_ETA + 1) as real);
  }

  lemma {:induction false} EtaIsNear(remaining: real, rate: real)
    requires rate > 0.0 && remaining > 0.0
    ensures var eta := EtaDuration(remaining / rate);
            eta.Some? ==> rate * (eta.value as real / SECOND as real) <= remaining
                          < rate * ((eta.value as real + 1.0) / SECOND as real)
  {
    var eta := EtaDuration(remaining / rate);
    hide EtaDuration;
    if eta.Some? {
      Covered(remaining, rate, SECOND as real, eta.value as real);
      Covered(remaining, rate, SECOND as real, eta.value as real + 1.0);
    }
  }

  lemma {:induction false} Covered(remaining: real, rate: real, second: real, t: real)
    requires rate > 0.0 && second > 0.0
    ensures t <= remaining / rate * second <==> rate * (t / second) <= remaining
  {
    var q, u := remaining / rate, t / second;
    assert q * rate == remaining && u * second == t;
    Cancelled(u, q, second);
    Cancelled(u, q, rate);
  }

  lemma {:induction false} Cancelled(u: real, q: real, c: real)
    requires c > 0.0
    ensures u * c <= q * c <==> u <= q
  {
    assert (q - u) * c == q * c - u * c;
  }
}
