/** The LRU as the program keeps it: a list of shared elements and a map from keys
    to those same elements. */
module Lru {
  import opened Options
  import opened Recency
  import opened LruModel

  class Element<K, V> {
    const k: K
    var v: V

    constructor (k: K, v: V)
      ensures this.k == k && this.v == v
    {
      this.k, this.v := k, v;
    }
  }

  /** The list and the map hold the same elements, one for each key. */
  ghost predicate Linked<K, V>(list: seq<Element<K, V>>, items: map<K, Element<K, V>>) {
    && NoDup(list)
    && (forall e :: e in list ==> e.k in items && items[e.k] == e)
    && (forall k :: k in items ==> items[k] in list && items[k].k == k)
  }

  lemma {:induction false} LinkedToFront<K, V>(list: seq<Element<K, V>>, items: map<K, Element<K, V>>, el: Element<K, V>)
    requires Linked(list, items) && el in list
    ensures Linked([el] + Without(list, el), items)
    ensures |Without(list, el)| == |list| - 1
    ensures forall e :: e in Without(list, el) ==> e in list
    ensures forall i :: 0 <= i < |Without(list, el)| ==> Without(list, el)[i] != el
  {
    WithoutNoDup(list, el);
    WithoutSubset(list, el);
  }

  lemma {:induction false} LinkedPop<K, V>(list: seq<Element<K, V>>, items: map<K, Element<K, V>>)
    requires Linked(list, items) && list != []
    ensures Linked(list[..|list| - 1], items - {list[|list| - 1].k})
  {
    var rest, oldest := list[..|list| - 1], list[|list| - 1];
    assert list == rest + [oldest];
    assert oldest in list;
  }

  lemma {:induction false} LinkedPush<K, V>(list: seq<Element<K, V>>, items: map<K, Element<K, V>>, el: Element<K, V>)
    requires Linked(list, items) && el.k !in items
    ensures Linked([el] + list, items[el.k := el])
  {
  }

  class LRU<K(==), V> {
    const cap: nat
    var list: seq<Element<K, V>>  // front is newest
    var items: map<K, Element<K, V>>
    var evicted: nat
    ghost var contents: seq<Entry<K, V>>  // what list holds, newest first
    ghost var Repr: set<object>

    ghost predicate Valid()
      reads this, Repr
      ensures Valid() ==> this in Repr && 0 < cap
    {
      && this in Repr
      && (forall e :: e in list ==> e in Repr)
      && 0 < cap
      && |contents| == |list| <= cap
      && Linked(list, items)
      && forall i :: 0 <= i < |list| ==> contents[i] == Entry(list[i].k, list[i].v)
    }

    ghost function State(): Cache<K, V>
      reads this
    {
      Cache(contents, evicted)
    }

    constructor (capacity: int)
      ensures Valid() && fresh(Repr) && State() == Cache([], 0)
      ensures cap == if capacity <= 0 then 1 else capacity
    {
      cap := if capacity <= 0 then 1 else capacity;
      list, items, evicted := [], map[], 0;
      contents := [];
      Repr := {this};
    }

    /** With keys distinct, finding an element by its key in the map or in the
        contents is the same thing. */
    lemma {:induction false} ItemsMeetContents(k: K)
      requires Valid()
      ensures NoDup(Keys(contents))
      ensures k in items <==> Lookup(contents, k).Some?
      ensures k in items ==> Lookup(contents, k) == Some(items[k].v)
      ensures k in items ==> items[k] in list && items[k].k == k
    {
      LookupMeaning(contents, k);
      assert forall i :: 0 <= i < |list| ==> Keys(contents)[i] == list[i].k && list[i] in list;
      if k in items {
        var i :| 0 <= i < |list| && list[i] == items[k];
        LookupAt(contents, i);
      }
    }

    /** Removing an element from the list removes its entry from the contents. */
    lemma {:induction false} FrontContents(el: Element<K, V>)
      requires Valid() && el in list
      ensures |Without(list, el)| == |Drop(contents, el.k)|
      ensures forall i :: 0 <= i < |Without(list, el)|
                ==> Drop(contents, el.k)[i] == Entry(Without(list, el)[i].k, Without(list, el)[i].v)
    {
      var i :| 0 <= i < |list| && list[i] == el;
      ItemsMeetContents(el.k);
      WithoutAt(list, i);
      assert contents[i].k == el.k;
      DropAt(contents, i);
    }

    method MoveToFront(el: Element<K, V>)
      requires Valid() && el in list
      modifies this`list, this`contents
      ensures Valid()
      ensures |list| == |old(list)| && el == list[0]
      ensures forall i :: 1 <= i < |list| ==> list[i] != el
      ensures forall e :: e in list ==> e in old(list)
      ensures contents == [Entry(el.k, el.v)] + Drop(old(contents), el.k)
    {
      hide Linked, Without, Drop, NoDup;
      LinkedToFront(list, items, el);
      FrontContents(el);
      contents := [Entry(el.k, el.v)] + Drop(contents, el.k);
      list := [el] + Without(list, el);
    }

    method Get(k: K) returns (r: Option<V>)
      requires Valid()
      modifies this`list, this`contents
      ensures Valid() && Repr == old(Repr)
      ensures r == Lookup(old(contents), k)
      ensures State() == GetStep(old(State()), k)
    {
      hide Linked, NoDup;
      ItemsMeetContents(k);
      if k !in items {
        return None;
      }
      var el := items[k];
      MoveToFront(el);
      r := Some(el.v);
    }

    method Put(k: K, v: V)
      requires Valid()
      modifies Repr
      ensures Valid() && fresh(Repr - old(Repr))
      ensures State() == PutStep(old(State()), cap, k, v)
    {
      hide Linked;
      ItemsMeetContents(k);
      if k in items {
        var el := items[k];
        MoveToFront(el);
        el.v := v;
        contents := contents[0 := Entry(k, v)];
        return;
      }
      if |list| >= cap {
        EvictOldest();
      }
      PushFront(k, v);
    }

    method PushFront(k: K, v: V)
      requires Valid() && k !in items && |list| < cap
      modifies this`list, this`items, this`contents, this`Repr
      ensures Valid() && fresh(Repr - old(Repr))
      ensures contents == [Entry(k, v)] + old(contents)
    {
      hide Linked;
      var el := new Element(k, v);
      LinkedPush(list, items, el);
      list := [el] + list;
      items := items[k := el];
      contents := [Entry(k, v)] + contents;
      Repr := Repr + {el};
    }

    method EvictOldest()
      requires Valid() && list != []
      modifies this`list, this`items, this`contents, this`evicted
      ensures Valid() && list == old(list)[..|old(list)| - 1]
      ensures State() == Cache(old(contents)[..|old(list)| - 1], old(evicted) + 1)
      ensures items.Keys <= old(items).Keys
    {
      hide Linked;
      var oldest := list[|list| - 1];
      LinkedPop(list, items);
      list := list[..|list| - 1];
      items := items - {oldest.k};
      evicted := evicted + 1;
      contents := contents[..|contents| - 1];
    }

    method Len() returns (n: nat)
      requires Valid()
      ensures n == |contents| <= cap
    {
      n := |list|;
    }

    /** Visits entries newest first until fn refuses one. */
    method Range(fn: (K, V) -> bool) returns (visited: seq<Entry<K, V>>)
      requires Valid()
      ensures visited <= contents
      ensures forall i :: 0 <= i < |visited| - 1 ==> fn(visited[i].k, visited[i].v)
      ensures visited == contents
           || (visited != [] && !fn(visited[|visited| - 1].k, visited[|visited| - 1].v))
    {
      visited := [];
      for i := 0 to |list|
        invariant visited == contents[..i]
        invariant forall j :: 0 <= j < |visited| ==> fn(visited[j].k, visited[j].v)
      {
        visited := visited + [Entry(list[i].k, list[i].v)];
        if !fn(list[i].k, list[i].v) {
          return;
        }
      }
    }
  }
}
