/** The few string searches the adapter uses. */
module Strings {
  import opened Options

  predicate OccursAt(s: string, i: nat, sub: string) {
    i + |sub| <= |s| && s[i..i + |sub|] == sub
  }

  /** strings.Index, searching from i on. */
  function IndexFrom(s: string, i: nat, sub: string): (r: Option<nat>)
    requires i <= |s|
    ensures r.Some? ==> i <= r.value && OccursAt(s, r.value, sub)
                        && forall j :: i <= j < r.value ==> !OccursAt(s, j, sub)
    ensures r.None? ==> forall j :: i <= j ==> !OccursAt(s, j, sub)
    decreases |s| - i
  {
    if OccursAt(s, i, sub) then Some(i)
    else if i == |s| then None
    else IndexFrom(s, i + 1, sub)
  }

  function Index(s: string, sub: string): Option<nat> {
    IndexFrom(s, 0, sub)
  }

  /** strings.LastIndex, searching from i down. */
  function LastIndexFrom(s: string, i: nat, sub: string): (r: Option<nat>)
    ensures r.Some? ==> r.value <= i && OccursAt(s, r.value, sub)
                        && forall j :: r.value < j <= i ==> !OccursAt(s, j, sub)
    ensures r.None? ==> forall j :: 0 <= j <= i ==> !OccursAt(s, j, sub)
  {
    if OccursAt(s, i, sub) then Some(i)
    else if i == 0 then None
    else LastIndexFrom(s, i - 1, sub)
  }

  function LastIndex(s: string, sub: string): Option<nat> {
    LastIndexFrom(s, |s|, sub)
  }

  /** The part of s before the first c, or all of it. */
  function Before(s: string, c: char): (r: string)
    ensures r <= s && c !in r && (|r| < |s| ==> s[|r|] == c)
  {
    if s == [] || s[0] == c then "" else [s[0]] + Before(s[1..], c)
  }

  lemma {:induction false} BeforeIs(a: string, s: string, c: char)
    requires c !in a && a <= s && (|a| == |s| || s[|a|] == c)
    ensures Before(s, c) == a
  {
    if a != "" {
      assert s[0] == a[0] && a[0] in a;
      assert a[1..] <= s[1..];
      BeforeIs(a[1..], s[1..], c);
    }
  }

  /** strings.ReplaceAll for one character. */
  function Replace(s: string, a: char, b: char): (r: string)
    ensures |r| == |s|
    ensures forall i :: 0 <= i < |s| ==> r[i] == if s[i] == a then b else s[i]
  {
    seq(|s|, i requires 0 <= i < |s| => if s[i] == a then b else s[i])
  }

  /** Replacing back undoes it when the replacement did not occur before. */
  lemma {:induction false} ReplaceBack(s: string, a: char, b: char)
    requires b !in s
    ensures Replace(Replace(s, a, b), b, a) == s
  {
    assert forall i :: 0 <= i < |s| ==> s[i] in s;
  }
}
