/** Sequences of keys ordered by recency, newest first, and the part of such an
    order that a bounded cache may keep. */
module Recency {

  function Take<T>(s: seq<T>, n: nat): (r: seq<T>) {
    if |s| <= n then s else s[..n]
  }

  ghost predicate NoDup<T>(s: seq<T>) {
    forall i, j :: 0 <= i < j < |s| ==> s[i] != s[j]
  }

  /** The sequence with every occurrence of x removed. */
  function Without<T(==)>(s: seq<T>, x: T): (r: seq<T>)
  {
    if s == [] then []
    else if s[0] == x then Without(s[1..], x)
    else [s[0]] + Without(s[1..], x)
  }

  /** The distinct keys of a touch history, in order of their latest touch. */
  function ByLastTouch<K(==)>(history: seq<K>): (r: seq<K>)
  {
    if history == [] then []
    else [history[0]] + Without(ByLastTouch(history[1..]), history[0])
  }

  function Reverse<T>(s: seq<T>): (r: seq<T>)
    ensures |r| == |s|
  {
    if s == [] then [] else [s[|s| - 1]] + Reverse(s[..|s| - 1])
  }

  lemma {:induction false} WithoutMembers<T>(s: seq<T>, x: T, y: T)
    ensures y in Without(s, x) <==> y in s && y != x
  {
    if s != [] {
      WithoutMembers(s[1..], x, y);
    }
  }

  /** The same, for every position at once. */
  lemma {:induction false} WithoutSubset<T>(s: seq<T>, x: T)
    ensures forall i :: 0 <= i < |Without(s, x)| ==> Without(s, x)[i] in s && Without(s, x)[i] != x
    ensures forall i :: 0 <= i < |s| && s[i] != x ==> s[i] in Without(s, x)
  {
    forall i | 0 <= i < |Without(s, x)|
      ensures Without(s, x)[i] in s && Without(s, x)[i] != x
    {
      WithoutMembers(s, x, Without(s, x)[i]);
    }
    forall i | 0 <= i < |s| && s[i] != x
      ensures s[i] in Without(s, x)
    {
      WithoutMembers(s, x, s[i]);
    }
  }

  lemma {:induction false} ByLastTouchMembers<K>(history: seq<K>, k: K)
    ensures k in ByLastTouch(history) <==> k in history
  {
    if history != [] {
      ByLastTouchMembers(history[1..], k);
      WithoutMembers(ByLastTouch(history[1..]), history[0], k);
    }
  }

  lemma {:induction false} WithoutAbsent<T>(s: seq<T>, x: T)
    requires x !in s
    ensures Without(s, x) == s
  {
    if s != [] {
      WithoutAbsent(s[1..], x);
    }
  }

  lemma {:induction false} WithoutConcat<T>(a: seq<T>, b: seq<T>, x: T)
    ensures Without(a + b, x) == Without(a, x) + Without(b, x)
  {
    if a == [] {
      assert a + b == b;
    } else {
      assert (a + b)[1..] == a[1..] + b;
      WithoutConcat(a[1..], b, x);
    }
  }

  /** On a sequence without duplicates, removing a value removes one position. */
  lemma {:induction false} WithoutAt<T>(s: seq<T>, i: nat)
    requires NoDup(s) && i < |s|
    ensures Without(s, s[i]) == s[..i] + s[i + 1..]
  {
    var x := s[i];
    assert s == s[..i] + ([x] + s[i + 1..]);
    WithoutConcat(s[..i], [x] + s[i + 1..], x);
    WithoutConcat([x], s[i + 1..], x);
    WithoutAbsent(s[..i], x);
    WithoutAbsent(s[i + 1..], x);
  }

  lemma {:induction false} WithoutNoDup<T>(s: seq<T>, x: T)
    requires NoDup(s)
    ensures NoDup(Without(s, x))
    ensures |Without(s, x)| == if x in s then |s| - 1 else |s|
  {
    if x in s {
      var i :| 0 <= i < |s| && s[i] == x;
      WithoutAt(s, i);
    } else {
      WithoutAbsent(s, x);
    }
  }

  lemma {:induction false} ByLastTouchNoDup<K>(history: seq<K>)
    ensures NoDup(ByLastTouch(history))
  {
    if history != [] {
      ByLastTouchNoDup(history[1..]);
      WithoutNoDup(ByLastTouch(history[1..]), history[0]);
      WithoutMembers(ByLastTouch(history[1..]), history[0], history[0]);
    }
  }

  /** One touch of k, seen by a cache that keeps the cap most recent keys: a kept
      key moves to the front, a new one enters at the front and the oldest leaves
      when there is no room. */
  lemma {:induction false} TouchStep<K>(order: seq<K>, cap: nat, k: K)
    requires NoDup(order) && cap > 0
    ensures Take([k] + Without(order, k), cap)
         == [k] + (if k in Take(order, cap) then Without(Take(order, cap), k)
                   else if |Take(order, cap)| >= cap then Take(order, cap)[..cap - 1]
                   else Take(order, cap))
  {
    var kept := Take(order, cap);
    if k in kept {
      var i :| 0 <= i < |kept| && kept[i] == k;
      TouchKept(order, cap, i);
    } else if |order| <= cap {
      WithoutAbsent(order, k);
    } else {
      assert forall i :: 0 <= i < cap ==> order[i] in kept by {
        assert forall i :: 0 <= i < cap ==> kept[i] == order[i];
      }
      TouchOverflow(order, cap, k);
    }
  }

  lemma {:induction false} TouchKept<K>(order: seq<K>, cap: nat, i: nat)
    requires NoDup(order) && i < |order| && i < cap
    ensures Take([order[i]] + Without(order, order[i]), cap) == [order[i]] + Without(Take(order, cap), order[i])
  {
    var kept := Take(order, cap);
    assert kept[i] == order[i];
    WithoutAt(order, i);
    WithoutAt(kept, i);
    hide Without, NoDup;
  }

  lemma {:induction false} TouchOverflow<K>(order: seq<K>, cap: nat, k: K)
    requires NoDup(order) && 0 < cap < |order|
    requires forall i :: 0 <= i < cap ==> order[i] != k
    ensures Take([k] + Without(order, k), cap) == [k] + order[..cap - 1]
  {
    if k in order {
      var i :| 0 <= i < |order| && order[i] == k;
      WithoutAt(order, i);
    } else {
      WithoutAbsent(order, k);
    }
  }
}
