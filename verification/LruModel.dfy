/** The LRU as a value: what Get and Put do to the newest-first contents, and what
    a whole run of them leaves behind. */
module LruModel {
  import opened Options
  import opened Recency

  datatype Entry<K, V> = Entry(k: K, v: V)

  datatype Cache<K, V> = Cache(entries: seq<Entry<K, V>>, evicted: nat)

  function Keys<K, V>(es: seq<Entry<K, V>>): seq<K> {
    seq(|es|, i requires 0 <= i < |es| => es[i].k)
  }

  function Lookup<K(==), V>(es: seq<Entry<K, V>>, k: K): Option<V> {
    if es == [] then None
    else if es[0].k == k then Some(es[0].v)
    else Lookup(es[1..], k)
  }

  function Drop<K(==), V>(es: seq<Entry<K, V>>, k: K): seq<Entry<K, V>> {
    if es == [] then []
    else if es[0].k == k then Drop(es[1..], k)
    else [es[0]] + Drop(es[1..], k)
  }

  function GetStep<K(==), V>(c: Cache<K, V>, k: K): Cache<K, V> {
    match Lookup(c.entries, k)
    case Some(v) => c.(entries := [Entry(k, v)] + Drop(c.entries, k))
    case None => c
  }

  function PutStep<K(==), V>(c: Cache<K, V>, cap: nat, k: K, v: V): Cache<K, V>
    requires cap > 0
  {
    if Lookup(c.entries, k).Some? then
      c.(entries := [Entry(k, v)] + Drop(c.entries, k))
    else if |c.entries| >= cap then
      Cache([Entry(k, v)] + c.entries[..|c.entries| - 1], c.evicted + 1)
    else
      c.(entries := [Entry(k, v)] + c.entries)
  }

  // ---- Lookup and Drop on contents without duplicate keys ----

  lemma {:induction false} LookupMeaning<K, V>(es: seq<Entry<K, V>>, k: K)
    ensures Lookup(es, k).Some? <==> k in Keys(es)
    ensures Lookup(es, k).Some? ==> Entry(k, Lookup(es, k).value) in es
  {
    if es != [] {
      LookupMeaning(es[1..], k);
      assert Keys(es) == [es[0].k] + Keys(es[1..]);
    }
  }

  lemma {:induction false} LookupAt<K, V>(es: seq<Entry<K, V>>, i: nat)
    requires NoDup(Keys(es)) && i < |es|
    ensures Lookup(es, es[i].k) == Some(es[i].v)
  {
    if i > 0 {
      assert Keys(es)[0] != Keys(es)[i];
      assert Keys(es[1..]) == Keys(es)[1..];
      LookupAt(es[1..], i - 1);
    }
  }

  lemma {:induction false} KeysOfDrop<K, V>(es: seq<Entry<K, V>>, k: K)
    ensures Keys(Drop(es, k)) == Without(Keys(es), k)
  {
    if es != [] {
      KeysOfDrop(es[1..], k);
      assert Keys(es)[1..] == Keys(es[1..]);
      assert Keys([es[0]] + Drop(es[1..], k)) == [es[0].k] + Keys(Drop(es[1..], k));
    }
  }

  lemma {:induction false} LookupAfterDrop<K, V>(es: seq<Entry<K, V>>, k: K, other: K)
    requires other != k
    ensures Lookup(Drop(es, k), other) == Lookup(es, other)
  {
    if es != [] {
      LookupAfterDrop(es[1..], k, other);
    }
  }

  lemma {:induction false} LookupInPrefix<K, V>(es: seq<Entry<K, V>>, n: nat, k: K)
    requires n <= |es| && k in Keys(es[..n])
    ensures Lookup(es[..n], k) == Lookup(es, k)
  {
    if es[0].k != k {
      assert es[..n][1..] == es[1..][..n - 1];
      assert Keys(es[..n]) == [es[0].k] + Keys(es[1..][..n - 1]);
      LookupInPrefix(es[1..], n - 1, k);
    }
  }

  /** Without duplicate keys, dropping a key cuts out one position. */
  lemma {:induction false} DropAt<K, V>(es: seq<Entry<K, V>>, i: nat)
    requires NoDup(Keys(es)) && i < |es|
    ensures Drop(es, es[i].k) == es[..i] + es[i + 1..]
  {
    if i == 0 {
      assert forall j :: 0 <= j < |es| - 1 ==> Keys(es[1..])[j] == Keys(es)[j + 1];
      assert Keys(es)[0] == es[0].k;
      DropAbsent(es[1..], es[0].k);
    } else {
      assert Keys(es)[0] != Keys(es)[i];
      assert Keys(es[1..]) == Keys(es)[1..];
      DropAt(es[1..], i - 1);
    }
  }

  lemma {:induction false} DropAbsent<K, V>(es: seq<Entry<K, V>>, k: K)
    requires k !in Keys(es)
    ensures Drop(es, k) == es
  {
    if es != [] {
      assert Keys(es) == [es[0].k] + Keys(es[1..]);
      DropAbsent(es[1..], k);
    }
  }

  // ---- Whole runs ----

  datatype Op<K, V> = Get(k: K) | Put(k: K, v: V)

  function Step<K(==), V>(c: Cache<K, V>, cap: nat, op: Op<K, V>): Cache<K, V>
    requires cap > 0
  {
    match op
    case Get(k) => GetStep(c, k)
    case Put(k, v) => PutStep(c, cap, k, v)
  }

  /** The cache after the operations, oldest first, on a new cache. */
  function Run<K(==), V>(ops: seq<Op<K, V>>, cap: nat): Cache<K, V>
    requires cap > 0
  {
    if ops == [] then Cache([], 0)
    else Step(Run(ops[..|ops| - 1], cap), cap, ops[|ops| - 1])
  }

  /** The touch history, newest first, told without a cache: a Put always touches
      its key, a Get only when the key is among the cap most recently touched. */
  function Touches<K(==), V>(ops: seq<Op<K, V>>, cap: nat): seq<K> {
    if ops == [] then []
    else
      var before := Touches(ops[..|ops| - 1], cap);
      var op := ops[|ops| - 1];
      if op.Put? || op.k in Take(ByLastTouch(before), cap) then [op.k] + before else before
  }

  /** The value the last Put gave to k. */
  function LastPut<K(==), V>(ops: seq<Op<K, V>>, k: K): Option<V> {
    if ops == [] then None
    else if ops[|ops| - 1].Put? && ops[|ops| - 1].k == k then Some(ops[|ops| - 1].v)
    else LastPut(ops[..|ops| - 1], k)
  }

  /** How many Puts brought in a key that was not among the cap most recent. */
  function FreshInserts<K(==), V>(ops: seq<Op<K, V>>, cap: nat): nat {
    if ops == [] then 0
    else
      var before := ops[..|ops| - 1];
      var op := ops[|ops| - 1];
      FreshInserts(before, cap)
      + if op.Put? && op.k !in Take(ByLastTouch(Touches(before, cap)), cap) then 1 else 0
  }

  /** One touch of k that leaves v in front. */
  lemma {:induction false} TouchContents<K, V>(es: seq<Entry<K, V>>, order: seq<K>, cap: nat, k: K, v: V)
    requires cap > 0 && NoDup(order) && Keys(es) == Take(order, cap)
    ensures var next := if Lookup(es, k).Some? then [Entry(k, v)] + Drop(es, k)
                        else if |es| >= cap then [Entry(k, v)] + es[..|es| - 1]
                        else [Entry(k, v)] + es;
            && Keys(next) == Take([k] + Without(order, k), cap)
            && Lookup(next, k) == Some(v)
            && forall other :: other in Keys(next) && other != k
                 ==> other in Keys(es) && Lookup(next, other) == Lookup(es, other)
  {
    TouchStep(order, cap, k);
    LookupMeaning(es, k);
    var rest := if Lookup(es, k).Some? then Drop(es, k)
                else if |es| >= cap then es[..|es| - 1] else es;
    var next := [Entry(k, v)] + rest;
    assert Keys(next) == [k] + Keys(rest);
    assert next[1..] == rest;
    KeysOfDrop(es, k);
    if !Lookup(es, k).Some? && |es| >= cap {
      assert Keys(es[..|es| - 1]) == Keys(es)[..|es| - 1];
    }
    forall other | other in Keys(next) && other != k
      ensures other in Keys(es) && Lookup(next, other) == Lookup(es, other)
    {
      LookupAfterDrop(es, k, other);
      assert other in Keys(rest);
      WithoutMembers(Keys(es), k, other);
      if !Lookup(es, k).Some? && |es| >= cap {
        LookupInPrefix(es, |es| - 1, other);
      }
    }
  }

  /** The contents are the first cap distinct keys by last touch, each with the
      value last Put for it. */
  ghost predicate Describes<K, V>(es: seq<Entry<K, V>>, ops: seq<Op<K, V>>, cap: nat) {
    && Keys(es) == Take(ByLastTouch(Touches(ops, cap)), cap)
    && forall k :: k in Keys(es) ==> LastPut(ops, k).Some? && Lookup(es, k) == LastPut(ops, k)
  }

  lemma {:induction false} TouchDescribed<K, V>(es: seq<Entry<K, V>>, ops: seq<Op<K, V>>, cap: nat, op: Op<K, V>, v: V)
    requires cap > 0 && Describes(es, ops, cap)
    requires LastPut(ops + [op], op.k) == Some(v)
    requires op.Put? || op.k in Keys(es)
    ensures var next := if Lookup(es, op.k).Some? then [Entry(op.k, v)] + Drop(es, op.k)
                        else if |es| >= cap then [Entry(op.k, v)] + es[..|es| - 1]
                        else [Entry(op.k, v)] + es;
            Describes(next, ops + [op], cap)
  {
    ByLastTouchNoDup(Touches(ops, cap));
    TouchContents(es, ByLastTouch(Touches(ops, cap)), cap, op.k, v);
    assert (ops + [op])[..|ops|] == ops;
    assert Touches(ops + [op], cap) == [op.k] + Touches(ops, cap);
    assert forall k :: k != op.k ==> LastPut(ops + [op], k) == LastPut(ops, k);
  }

  /** Main result: after any run the newest-first keys are the first cap distinct
      keys ordered by last touch, and each holds what was last Put for it. */
  lemma {:induction false} RunContents<K, V>(ops: seq<Op<K, V>>, cap: nat)
    requires cap > 0
    ensures Describes(Run(ops, cap).entries, ops, cap)
  {
    if ops != [] {
      var before, op := ops[..|ops| - 1], ops[|ops| - 1];
      assert before + [op] == ops;
      RunContents(before, cap);
      var es := Run(before, cap).entries;
      LookupMeaning(es, op.k);
      if op.Put? {
        TouchDescribed(es, before, cap, op, op.v);
      } else if Lookup(es, op.k).Some? {
        TouchDescribed(es, before, cap, op, Lookup(es, op.k).value);
      } else {
        assert forall k :: LastPut(ops, k) == LastPut(before, k);
      }
    }
  }

  /** Every fresh insert is either still there or was counted as evicted. */
  lemma {:induction false} InsertsAccounted<K, V>(ops: seq<Op<K, V>>, cap: nat)
    requires cap > 0
    ensures FreshInserts(ops, cap) == |Run(ops, cap).entries| + Run(ops, cap).evicted
    ensures |Run(ops, cap).entries| <= cap
  {
    RunContents(ops, cap);
    assert |Keys(Run(ops, cap).entries)| == |Run(ops, cap).entries|;
    if ops != [] {
      var before := ops[..|ops| - 1];
      var op := ops[|ops| - 1];
      InsertsAccounted(before, cap);
      RunContents(before, cap);
      var c := Run(before, cap);
      ByLastTouchNoDup(Touches(before, cap));
      LookupMeaning(c.entries, op.k);
      SizeAfterTouch(c.entries, op.k);
    }
  }

  lemma {:induction false} SizeAfterTouch<K, V>(es: seq<Entry<K, V>>, k: K)
    requires NoDup(Keys(es))
    ensures Lookup(es, k).Some? ==> |Drop(es, k)| == |es| - 1
  {
    LookupMeaning(es, k);
    KeysOfDrop(es, k);
    WithoutNoDup(Keys(es), k);
    assert |Keys(Drop(es, k))| == |Drop(es, k)|;
  }

  // ---- Get, then Put on a miss ----

  /** What the collectors do with a key: look it up and insert it when missing. */
  function Access<K(==), V>(c: Cache<K, V>, cap: nat, k: K, inserted: V): Cache<K, V>
    requires cap > 0
  {
    if Lookup(c.entries, k).Some? then GetStep(c, k) else PutStep(c, cap, k, inserted)
  }

  function AccessAll<K(==), V>(ks: seq<K>, cap: nat, v: V): Cache<K, V>
    requires cap > 0
  {
    if ks == [] then Cache([], 0)
    else Access(AccessAll(ks[..|ks| - 1], cap, v), cap, ks[|ks| - 1], v)
  }

  lemma {:induction false} AccessKeys<K, V>(ks: seq<K>, cap: nat, v: V)
    requires cap > 0
    ensures Keys(AccessAll(ks, cap, v).entries) == Take(ByLastTouch(Reverse(ks)), cap)
  {
    if ks != [] {
      var before := ks[..|ks| - 1];
      var k := ks[|ks| - 1];
      AccessKeys(before, cap, v);
      var es := AccessAll(before, cap, v).entries;
      ByLastTouchNoDup(Reverse(before));
      TouchContents(es, ByLastTouch(Reverse(before)), cap, k,
                    if Lookup(es, k).Some? then Lookup(es, k).value else v);
      assert Reverse(ks)[1..] == Reverse(before);
    }
  }

  /** Inclusion: the keys of the smaller cache are the newest keys of the larger. */
  lemma {:induction false} SmallerCapKeepsPrefix<K, V>(ks: seq<K>, small: nat, large: nat, v: V)
    requires 0 < small <= large
    ensures Keys(AccessAll(ks, small, v).entries)
         == Take(Keys(AccessAll(ks, large, v).entries), small)
  {
    AccessKeys(ks, small, v);
    AccessKeys(ks, large, v);
  }
}
