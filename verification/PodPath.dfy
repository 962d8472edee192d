/** Pod UIDs in cgroup paths: how they are found, and why that undoes both of the ways
    in which they are written. */
module PodPath {
  import opened Options
  import opened Strings

  predicate IsUidChar(c: char) {
    ('0' <= c <= '9') || ('a' <= c <= 'f') || c == '-' || c == '_'
  }

  /** The loop of isUIDLike. */
  method IsUIDLikeLoop(s: string) returns (ok: bool)
    ensures ok <==> IsUIDLike(s)
  {
    if |s| < 32 {
      return false;
    }
    for i := 0 to |s|
      invariant forall j :: 0 <= j < i ==> IsUidChar(s[j])
    {
      var c := s[i];
      if !(('0' <= c <= '9') || ('a' <= c <= 'f') || c == '-' || c == '_') {
        return false;
      }
    }
    ok := true;
  }

  predicate IsUIDLike(s: string) {
    |s| >= 32 && forall i :: 0 <= i < |s| ==> IsUidChar(s[i])
  }

  /** The path element after the first plain marker. */
  function PlainCandidate(path: string): string {
    match Index(path, "/pod")
    case Some(i) => Before(path[i + 4..], '/')
    case None => ""
  }

  /** The rest of the slice name after the first slice marker, unescaped. */
  function SliceCandidate(path: string): string {
    match Index(path, "-pod")
    case Some(i) => Replace(Before(path[i + 4..], '.'), '_', '-')
    case None => ""
  }

  function ExtractPodUID(path: string): (r: string)
    ensures r == "" || IsUIDLike(r)
  {
    if IsUIDLike(PlainCandidate(path)) then PlainCandidate(path)
    else if IsUIDLike(SliceCandidate(path)) then SliceCandidate(path)
    else ""
  }

  // ---- The two ways a UID is written into a path ----

  function PlainPath(prefix: string, uid: string, suffix: string): string {
    prefix + "/pod" + uid + suffix
  }

  /** systemd does not allow dashes in a unit name's last part. */
  function SlicePath(prefix: string, uid: string, suffix: string): string {
    prefix + "-pod" + Replace(uid, '-', '_') + ".slice" + suffix
  }

  lemma {:induction false} FoundAt(path: string, sub: string, n: nat)
    requires OccursAt(path, n, sub) && forall i :: 0 <= i < n ==> !OccursAt(path, i, sub)
    ensures Index(path, sub) == Some(n)
  {
  }

  /** A UID written plainly is found again: with the suffix empty or a further path
      element, wherever the first marker is this one. */
  lemma {:induction false} PlainRoundTrip(prefix: string, uid: string, suffix: string)
    requires IsUIDLike(uid) && (suffix == "" || suffix[0] == '/')
    requires forall i :: 0 <= i < |prefix| ==> !OccursAt(PlainPath(prefix, uid, suffix), i, "/pod")
    ensures ExtractPodUID(PlainPath(prefix, uid, suffix)) == uid
  {
    var path, n := PlainPath(prefix, uid, suffix), |prefix|;
    assert path[n..n + 4] == "/pod";
    FoundAt(path, "/pod", n);
    assert path[n + 4..] == uid + suffix;
    assert forall i :: 0 <= i < |uid| ==> uid[i] != '/';
    BeforeIs(uid, uid + suffix, '/');
  }

  /** A UID escaped into a slice name is found again, unescaped: whatever follows, as
      long as no plain marker leads to a UID and no slice marker stands before. */
  lemma {:induction false} SliceRoundTrip(prefix: string, uid: string, suffix: string)
    requires IsUIDLike(uid) && '_' !in uid
    requires !IsUIDLike(PlainCandidate(SlicePath(prefix, uid, suffix)))
    requires forall i :: 0 <= i < |prefix| ==> !OccursAt(SlicePath(prefix, uid, suffix), i, "-pod")
    ensures ExtractPodUID(SlicePath(prefix, uid, suffix)) == uid
  {
    var path, n := SlicePath(prefix, uid, suffix), |prefix|;
    var escaped := Replace(uid, '-', '_');
    assert path[n..n + 4] == "-pod";
    FoundAt(path, "-pod", n);
    assert path[n + 4..] == escaped + (".slice" + suffix);
    assert forall i :: 0 <= i < |uid| ==> uid[i] != '.';
    BeforeIs(escaped, escaped + (".slice" + suffix), '.');
    ReplaceBack(uid, '-', '_');
  }
}
