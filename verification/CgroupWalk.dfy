/** Finding the memory-limited cgroups of a directory tree. */
module CgroupWalk {
  import opened Options

  const MAX_DEPTH := 8

  /** What comes of listing a directory. One that is gone or forbidden counts as empty. */
  datatype Listing = Listed | Absent | Broken

  /** limit is the finite value of memory.max, if there is one; plain files are no part
      of the tree. */
  datatype Dir = Dir(name: string, listing: Listing, limit: Option<nat>, subs: seq<Dir>)

  type Path = seq<string>

  datatype Entry = Entry(path: Path, limit: nat)

  datatype Outcome = Entries(entries: seq<Entry>) | Error

  /** An error below the root costs only the entries of that directory. */
  function EntriesOf(o: Outcome): seq<Entry> {
    match o
    case Entries(es) => es
    case Error => []
  }

  /** What the first k subdirectories report. */
  function Below(d: Dir, dir: Path, depth: nat, k: nat): seq<Entry>
    requires k <= |d.subs|
    decreases d, k
  {
    if k == 0 then []
    else Below(d, dir, depth, k - 1) + EntriesOf(Walked(d.subs[k - 1], dir + [d.subs[k - 1].name], depth + 1))
  }

  function Walked(d: Dir, dir: Path, depth: nat): Outcome
    decreases d, |d.subs| + 1
  {
    if depth > MAX_DEPTH then Entries([])
    else match d.listing
      case Broken => Error
      case Absent => Entries([])
      case Listed =>
        var below := Below(d, dir, depth, |d.subs|);
        Entries(if d.limit.Some? && below == [] then [Entry(dir, d.limit.value)] else below)
  }

  method WalkCgroups(d: Dir, dir: Path, depth: nat) returns (o: Outcome)
    ensures o == Walked(d, dir, depth)
    decreases d
  {
    if depth > MAX_DEPTH {
      return Entries([]);
    }
    if d.listing != Listed {
      return if d.listing == Absent then Entries([]) else Error;
    }
    var result := [];
    for i := 0 to |d.subs|
      invariant result == Below(d, dir, depth, i)
    {
      var sub := dir + [d.subs[i].name];
      var children := WalkCgroups(d.subs[i], sub, depth + 1);
      if children.Error? {
        continue;
      }
      result := result + children.entries;
    }
    if d.limit.Some? && |result| == 0 {
      result := result + [Entry(dir, d.limit.value)];
    }
    o := Entries(result);
  }

  // ---- What should be found ----

  /** Following rel from d, through directories that can be listed and are not too
      deep, leads to one limited to the given bytes. */
  ghost predicate Limited(d: Dir, depth: nat, rel: Path, bytes: nat)
    decreases |rel|
  {
    && depth <= 8 && d.listing == Listed
    && if rel == [] then d.limit == Some(bytes)
       else exists i :: 0 <= i < |d.subs| && d.subs[i].name == rel[0] && Limited(d.subs[i], depth + 1, rel[1..], bytes)
  }

  /** Limited, and nothing further down is. */
  ghost predicate Innermost(d: Dir, depth: nat, rel: Path, bytes: nat) {
    Limited(d, depth, rel, bytes) && forall longer, b :: rel < longer ==> !Limited(d, depth, longer, b)
  }

  /** Names in one directory differ. */
  ghost predicate WellNamed(d: Dir) {
    && (forall i, j :: 0 <= i < j < |d.subs| ==> d.subs[i].name != d.subs[j].name)
    && (forall i :: 0 <= i < |d.subs| ==> WellNamed(d.subs[i]))
  }

  function Found(d: Dir, dir: Path, depth: nat): seq<Entry> {
    EntriesOf(Walked(d, dir, depth))
  }

  lemma {:induction false} BelowMember(d: Dir, dir: Path, depth: nat, k: nat, e: Entry)
    requires k <= |d.subs|
    ensures e in Below(d, dir, depth, k)
       <==> exists i :: 0 <= i < k && e in Found(d.subs[i], dir + [d.subs[i].name], depth + 1)
  {
    hide Walked, EntriesOf;
    if k > 0 {
      BelowMember(d, dir, depth, k - 1, e);
    }
  }

  /** Whatever is found is limited, and lies below the start. */
  lemma {:induction false} FoundIsLimited(d: Dir, dir: Path, depth: nat, e: Entry)
    requires e in Found(d, dir, depth)
    ensures dir <= e.path && Limited(d, depth, e.path[|dir|..], e.limit)
    decreases d
  {
    hide Below;
    if e in Below(d, dir, depth, |d.subs|) {
      BelowMember(d, dir, depth, |d.subs|, e);
      var i :| 0 <= i < |d.subs| && e in Found(d.subs[i], dir + [d.subs[i].name], depth + 1);
      var sub := dir + [d.subs[i].name];
      FoundIsLimited(d.subs[i], sub, depth + 1, e);
      PrefixStep(dir, d.subs[i].name, e.path);
    }
  }

  lemma {:induction false} PrefixStep(dir: Path, name: string, p: Path)
    requires dir + [name] <= p
    ensures dir <= p && p[|dir|..] != [] && p[|dir|..][0] == name
    ensures p[|dir|..][1..] == p[|dir + [name]|..]
  {
    assert (dir + [name])[|dir|] == name;
    assert dir == (dir + [name])[..|dir|];
  }

  /** Every limited directory is found, or one further down is found instead. */
  lemma {:induction false} LimitedIsCovered(d: Dir, dir: Path, depth: nat, rel: Path, bytes: nat) returns (e: Entry)
    requires Limited(d, depth, rel, bytes)
    ensures e in Found(d, dir, depth) && dir + rel <= e.path
    decreases d
  {
    hide Below;
    var below := Below(d, dir, depth, |d.subs|);
    if rel == [] {
      assert dir + rel == dir;
      if below == [] {
        e := Entry(dir, bytes);
      } else {
        e := below[0];
        FoundIsLimited(d, dir, depth, e);
      }
    } else {
      var i :| 0 <= i < |d.subs| && d.subs[i].name == rel[0] && Limited(d.subs[i], depth + 1, rel[1..], bytes);
      e := LimitedIsCovered(d.subs[i], dir + [rel[0]], depth + 1, rel[1..], bytes);
      assert dir + rel == dir + [rel[0]] + rel[1..];
      BelowMember(d, dir, depth, |d.subs|, e);
    }
  }

  /** A directory reports what is below it, or else at most itself. */
  lemma {:induction false} FoundCases(d: Dir, dir: Path, depth: nat)
    ensures var below := Below(d, dir, depth, |d.subs|);
            (Found(d, dir, depth) == below || Found(d, dir, depth) == []
             || (below == [] && |Found(d, dir, depth)| == 1 && Found(d, dir, depth)[0].path == dir))
  {
    hide Below;
  }

  /** No found directory lies below another. */
  lemma {:induction false} FoundApart(d: Dir, dir: Path, depth: nat, x: Entry, y: Entry)
    requires WellNamed(d) && x in Found(d, dir, depth) && y in Found(d, dir, depth) && x.path <= y.path
    ensures x == y
    decreases d
  {
    FoundCases(d, dir, depth);
    hide Below, Walked, EntriesOf, Found, Limited;
    var n := |d.subs|;
    if |Found(d, dir, depth)| > 1 || Found(d, dir, depth)[0].path != dir || Below(d, dir, depth, n) != [] {
      BelowMember(d, dir, depth, n, x);
      BelowMember(d, dir, depth, n, y);
      var i :| 0 <= i < n && x in Found(d.subs[i], dir + [d.subs[i].name], depth + 1);
      var j :| 0 <= j < n && y in Found(d.subs[j], dir + [d.subs[j].name], depth + 1);
      FoundIsLimited(d.subs[i], dir + [d.subs[i].name], depth + 1, x);
      FoundIsLimited(d.subs[j], dir + [d.subs[j].name], depth + 1, y);
      assert x.path[|dir|] == (dir + [d.subs[i].name])[|dir|] && y.path[|dir|] == (dir + [d.subs[j].name])[|dir|];
      assert x.path[|dir|] == y.path[|dir|];
      assert i == j;
      FoundApart(d.subs[i], dir + [d.subs[i].name], depth + 1, x, y);
    }
  }

  /** Main result: the walk finds exactly the limited directories that have no limited
      directory further down. */
  lemma {:induction false} FoundIsInnermost(d: Dir, dir: Path, depth: nat, e: Entry)
    requires WellNamed(d)
    ensures e in Found(d, dir, depth) <==> dir <= e.path && Innermost(d, depth, e.path[|dir|..], e.limit)
  {
    hide Found, Limited, WellNamed;
    if e in Found(d, dir, depth) {
      FoundIsLimited(d, dir, depth, e);
      var rel := e.path[|dir|..];
      forall longer, b | rel < longer
        ensures !Limited(d, depth, longer, b)
      {
        if Limited(d, depth, longer, b) {
          var f := LimitedIsCovered(d, dir, depth, longer, b);
          Extends(dir, e.path, longer, f.path);
          FoundApart(d, dir, depth, e, f);
        }
      }
    } else if dir <= e.path && Innermost(d, depth, e.path[|dir|..], e.limit) {
      var rel := e.path[|dir|..];
      var f := LimitedIsCovered(d, dir, depth, rel, e.limit);
      FoundIsLimited(d, dir, depth, f);
      assert dir + rel == e.path;
      var there := f.path[|dir|..];
      assert rel <= there by {
        Extends(dir, e.path, there, f.path);
      }
      assert f.path == dir + there;
      if rel == there {
        LimitUnique(d, depth, rel, e.limit, f.limit);
      }
    }
  }

  lemma {:induction false} LimitUnique(d: Dir, depth: nat, rel: Path, b: nat, c: nat)
    requires WellNamed(d) && Limited(d, depth, rel, b) && Limited(d, depth, rel, c)
    ensures b == c
    decreases |rel|
  {
    if rel != [] {
      var i :| 0 <= i < |d.subs| && d.subs[i].name == rel[0] && Limited(d.subs[i], depth + 1, rel[1..], b);
      var j :| 0 <= j < |d.subs| && d.subs[j].name == rel[0] && Limited(d.subs[j], depth + 1, rel[1..], c);
      assert i == j;
      LimitUnique(d.subs[i], depth + 1, rel[1..], b, c);
    }
  }

  lemma {:induction false} Extends(dir: Path, p: Path, longer: Path, q: Path)
    requires dir <= p && dir <= q
    ensures p[|dir|..] < longer && dir + longer <= q ==> p < q
    ensures p <= q ==> p[|dir|..] <= q[|dir|..]
  {
  }

  ghost predicate Once(es: seq<Entry>) {
    forall i, j :: 0 <= i < j < |es| ==> es[i].path != es[j].path
  }

  /** Nothing is found twice. */
  lemma {:induction false} FoundOnce(d: Dir, dir: Path, depth: nat)
    requires WellNamed(d)
    ensures Once(Found(d, dir, depth))
    decreases d, |d.subs| + 1
  {
    hide Below, EntriesOf, Found;
    BelowOnce(d, dir, depth, |d.subs|);
    FoundCases(d, dir, depth);
  }

  lemma {:induction false} BelowOnce(d: Dir, dir: Path, depth: nat, k: nat)
    requires WellNamed(d) && k <= |d.subs|
    ensures Once(Below(d, dir, depth, k))
    decreases d, k
  {
    if k > 0 {
      var sub := d.subs[k - 1];
      var first, more := Below(d, dir, depth, k - 1), Found(sub, dir + [sub.name], depth + 1);
      BelowOnce(d, dir, depth, k - 1);
      FoundOnce(sub, dir + [sub.name], depth + 1);
      hide Walked, EntriesOf, Limited;
      assert Below(d, dir, depth, k) == first + more;
      hide Below, Found;
      forall x, y | x in first && y in more
        ensures x.path != y.path
      {
        BelowMember(d, dir, depth, k - 1, x);
        var i :| 0 <= i < k - 1 && x in Found(d.subs[i], dir + [d.subs[i].name], depth + 1);
        FoundIsLimited(d.subs[i], dir + [d.subs[i].name], depth + 1, x);
        FoundIsLimited(sub, dir + [sub.name], depth + 1, y);
        assert x.path[|dir|] == (dir + [d.subs[i].name])[|dir|] && y.path[|dir|] == (dir + [sub.name])[|dir|];
      }
      Apart(first, more);
    }
  }

  lemma {:induction false} Apart(a: seq<Entry>, b: seq<Entry>)
    requires Once(a) && Once(b)
    requires forall x, y :: x in a && y in b ==> x.path != y.path
    ensures Once(a + b)
  {
    forall i, j | 0 <= i < j < |a + b|
      ensures (a + b)[i].path != (a + b)[j].path
    {
      if i < |a| <= j {
        assert (a + b)[i] in a && (a + b)[j] in b;
      }
    }
  }

  /** What is visible down to the depth limit is all that counts: a limited directory
      that can be reached is reported itself or through one below it, and never both. */
  lemma {:induction false} ReportedOnceOnEachBranch(d: Dir, dir: Path, depth: nat, rel: Path, bytes: nat)
    requires WellNamed(d) && Limited(d, depth, rel, bytes)
    ensures exists e :: e in Found(d, dir, depth) && dir + rel <= e.path
    ensures forall e, f :: e in Found(d, dir, depth) && f in Found(d, dir, depth) && e.path <= f.path ==> e == f
  {
    hide Found, Limited, WellNamed;
    var e := LimitedIsCovered(d, dir, depth, rel, bytes);
    forall e, f | e in Found(d, dir, depth) && f in Found(d, dir, depth) && e.path <= f.path
      ensures e == f
    {
      FoundApart(d, dir, depth, e, f);
    }
  }
}
