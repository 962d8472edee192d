/** Stable sorting by a strict weak order, and why its result is the only one. */
module Sorting {

  ghost predicate StrictWeakOrder<T(!new)>(less: (T, T) -> bool) {
    && (forall x :: !less(x, x))
    && (forall x, y, z :: less(x, y) && less(y, z) ==> less(x, z))
    && (forall x, y, z :: !less(x, y) && !less(y, z) ==> !less(x, z))
  }

  ghost predicate Sorted<T>(s: seq<T>, less: (T, T) -> bool) {
    forall i, j :: 0 <= i < j < |s| ==> !less(s[j], s[i])
  }

  predicate Tied<T>(x: T, y: T, less: (T, T) -> bool) {
    !less(x, y) && !less(y, x)
  }

  /** The elements of s tied with x, in their order in s. */
  function TiedWith<T>(s: seq<T>, x: T, less: (T, T) -> bool): seq<T> {
    if s == [] then []
    else (if Tied(s[0], x, less) then [s[0]] else []) + TiedWith(s[1..], x, less)
  }

  /** t orders s, and elements that tie keep their order. */
  ghost predicate StablySorts<T(!new)>(t: seq<T>, s: seq<T>, less: (T, T) -> bool) {
    && multiset(t) == multiset(s)
    && Sorted(t, less)
    && forall x :: TiedWith(t, x, less) == TiedWith(s, x, less)
  }

  /** Where x settles when it sinks to the left past the greater elements. */
  function Slot<T>(s: seq<T>, x: T, less: (T, T) -> bool): (i: nat)
    ensures i <= |s|
    ensures i > 0 ==> !less(x, s[i - 1])
    ensures forall j :: i <= j < |s| ==> less(x, s[j])
  {
    if s == [] || !less(x, s[|s| - 1]) then |s| else Slot(s[..|s| - 1], x, less)
  }

  function Insert<T>(s: seq<T>, x: T, less: (T, T) -> bool): seq<T> {
    var i := Slot(s, x, less);
    s[..i] + [x] + s[i..]
  }

  function StableSort<T>(s: seq<T>, less: (T, T) -> bool): (t: seq<T>)
    ensures |t| == |s|
  {
    if s == [] then [] else Insert(StableSort(s[..|s| - 1], less), s[|s| - 1], less)
  }

  lemma {:induction false} TiedConcat<T>(a: seq<T>, b: seq<T>, x: T, less: (T, T) -> bool)
    ensures TiedWith(a + b, x, less) == TiedWith(a, x, less) + TiedWith(b, x, less)
  {
    if a == [] {
      assert a + b == b;
    } else {
      TiedConcat(a[1..], b, x, less);
      assert (a + b)[0] == a[0] && (a + b)[1..] == a[1..] + b;
      var head := if Tied(a[0], x, less) then [a[0]] else [];
      assert TiedWith(a, x, less) == head + TiedWith(a[1..], x, less);
      assert TiedWith(a + b, x, less) == head + TiedWith(a[1..] + b, x, less);
      hide *;
      assert head + (TiedWith(a[1..], x, less) + TiedWith(b, x, less))
          == head + TiedWith(a[1..], x, less) + TiedWith(b, x, less);
    }
  }

  lemma {:induction false} NoneTied<T>(s: seq<T>, x: T, less: (T, T) -> bool)
    requires forall i :: 0 <= i < |s| ==> !Tied(s[i], x, less)
    ensures TiedWith(s, x, less) == []
  {
    if s != [] {
      NoneTied(s[1..], x, less);
    }
  }

  lemma {:induction false} InsertKeepsSorted<T(!new)>(s: seq<T>, x: T, less: (T, T) -> bool)
    requires StrictWeakOrder(less) && Sorted(s, less)
    ensures Sorted(Insert(s, x, less), less)
  {
    var i := Slot(s, x, less);
    forall j | 0 <= j < i
      ensures !less(x, s[j])
    {
      assert j < i - 1 ==> !less(s[i - 1], s[j]);
    }
  }

  lemma {:induction false} SwapUntied<T>(a: seq<T>, b: seq<T>, c: seq<T>, y: T, less: (T, T) -> bool)
    requires TiedWith(b, y, less) == [] || TiedWith(c, y, less) == []
    ensures TiedWith(a + b + c, y, less) == TiedWith(a + c + b, y, less)
  {
    SplitTied(a, b, c, y, less);
    SplitTied(a, c, b, y, less);
  }

  /** Nothing that x sinks past ties with anything x ties with. */
  lemma {:induction false} BehindSlot<T(!new)>(s: seq<T>, x: T, y: T, less: (T, T) -> bool)
    requires StrictWeakOrder(less) && Tied(x, y, less)
    ensures TiedWith(s[Slot(s, x, less)..], y, less) == []
  {
    var i := Slot(s, x, less);
    forall j | i <= j < |s|
      ensures !Tied(s[j], y, less)
    {
      assert less(x, s[j]);
      assert less(y, s[j]);
    }
    NoneTied(s[i..], y, less);
  }

  lemma {:induction false} InsertIsStable<T(!new)>(s: seq<T>, x: T, y: T, less: (T, T) -> bool)
    requires StrictWeakOrder(less)
    ensures TiedWith(Insert(s, x, less), y, less) == TiedWith(s + [x], y, less)
  {
    var i := Slot(s, x, less);
    if Tied(x, y, less) {
      BehindSlot(s, x, y, less);
    } else {
      NoneTied([x], y, less);
    }
    AroundSlot(s, i, x, y, less);
  }

  lemma {:induction false} AroundSlot<T>(s: seq<T>, i: nat, x: T, y: T, less: (T, T) -> bool)
    requires i <= |s|
    requires TiedWith(s[i..], y, less) == [] || TiedWith([x], y, less) == []
    ensures TiedWith(s[..i] + [x] + s[i..], y, less) == TiedWith(s + [x], y, less)
  {
    assert s == s[..i] + s[i..];
    SwapUntied(s[..i], [x], s[i..], y, less);
  }

  lemma {:induction false} SplitTied<T>(a: seq<T>, b: seq<T>, c: seq<T>, y: T, less: (T, T) -> bool)
    ensures TiedWith(a + b + c, y, less)
         == TiedWith(a, y, less) + TiedWith(b, y, less) + TiedWith(c, y, less)
  {
    TiedConcat(a + b, c, y, less);
    TiedConcat(a, b, y, less);
  }

  lemma {:induction false} StableSortCorrect<T(!new)>(s: seq<T>, less: (T, T) -> bool)
    requires StrictWeakOrder(less)
    ensures StablySorts(StableSort(s, less), s, less)
  {
    if s != [] {
      var front, x := s[..|s| - 1], s[|s| - 1];
      var t := StableSort(front, less);
      StableSortCorrect(front, less);
      InsertKeepsSorted(t, x, less);
      assert s == front + [x];
      var i := Slot(t, x, less);
      assert t == t[..i] + t[i..];
      assert multiset(Insert(t, x, less)) == multiset(t) + multiset{x};
      forall y
        ensures TiedWith(StableSort(s, less), y, less) == TiedWith(s, y, less)
      {
        InsertIsStable(t, x, y, less);
        TiedConcat(t, [x], y, less);
        TiedConcat(front, [x], y, less);
      }
    }
  }

  /** The library's sort.Slice promises an ordered permutation, not which of several. */
  method SortSlice<T(!new)>(rows: seq<T>, less: (T, T) -> bool) returns (ranked: seq<T>)
    requires StrictWeakOrder(less)
    ensures multiset(ranked) == multiset(rows) && Sorted(ranked, less)
  {
    StableSortCorrect(rows, less);
    ranked := StableSort(rows, less);
  }

  lemma {:induction false} TiedMembers<T>(s: seq<T>, x: T, less: (T, T) -> bool)
    ensures forall y :: y in TiedWith(s, x, less) ==> y in s && Tied(y, x, less)
    ensures forall y :: y in s && Tied(y, x, less) ==> y in TiedWith(s, x, less)
  {
    if s != [] {
      TiedMembers(s[1..], x, less);
      assert s == [s[0]] + s[1..];
    }
  }

  lemma {:induction false} TiedTail<T>(s: seq<T>, x: T, less: (T, T) -> bool)
    requires s != []
    ensures Tied(s[0], x, less)
      ==> TiedWith(s, x, less) != [] && TiedWith(s[1..], x, less) == TiedWith(s, x, less)[1..]
    ensures !Tied(s[0], x, less) ==> TiedWith(s[1..], x, less) == TiedWith(s, x, less)
  {
  }

  lemma {:induction false} HeadsAgree<T(!new)>(a: seq<T>, b: seq<T>, less: (T, T) -> bool)
    requires StrictWeakOrder(less) && Sorted(a, less) && Sorted(b, less) && a != [] && b != []
    requires forall x :: TiedWith(a, x, less) == TiedWith(b, x, less)
    ensures a[0] == b[0]
  {
    TiedMembers(a, a[0], less);
    TiedMembers(b, a[0], less);
    TiedMembers(a, b[0], less);
    TiedMembers(b, b[0], less);
    assert a[0] in TiedWith(b, a[0], less) && b[0] in TiedWith(a, b[0], less);
    assert Tied(a[0], b[0], less);
    assert TiedWith(a, a[0], less)[0] == a[0] && TiedWith(b, a[0], less)[0] == b[0];
  }

  /** Two sorted sequences that agree on every group of ties are equal, so a stable
      sort has one possible result. */
  lemma {:induction false} StableSortUnique<T(!new)>(a: seq<T>, b: seq<T>, less: (T, T) -> bool)
    requires StrictWeakOrder(less) && Sorted(a, less) && Sorted(b, less)
    requires forall x :: TiedWith(a, x, less) == TiedWith(b, x, less)
    ensures a == b
  {
    if a == [] || b == [] {
      if a != [] {
        assert Tied(a[0], a[0], less);
        TiedTail(a, a[0], less);
      } else if b != [] {
        assert Tied(b[0], b[0], less);
        TiedTail(b, b[0], less);
      }
    } else {
      HeadsAgree(a, b, less);
      forall x
        ensures TiedWith(a[1..], x, less) == TiedWith(b[1..], x, less)
      {
        TiedTail(a, x, less);
        TiedTail(b, x, less);
      }
      StableSortUnique(a[1..], b[1..], less);
    }
  }
}
