/** The cache key of a diagnosis: rule names and severities, joined into one string. */
module FindingsKey {

  datatype Severity = Info | Warning | Critical

  /** The part of a finding that the key sees. */
  datatype Diagnosis = Diagnosis(rule: string, severity: Severity)

  function SeverityString(s: Severity): string {
    match s
    case Info => "INFO"
    case Warning => "WARNING"
    case Critical => "CRITICAL"
  }

  function Part(d: Diagnosis): string {
    d.rule + ":" + SeverityString(d.severity)
  }

  function Join(ds: seq<Diagnosis>): string
    requires ds != []
  {
    if |ds| == 1 then Part(ds[0]) else Part(ds[0]) + "|" + Join(ds[1..])
  }

  function Fingerprint(ds: seq<Diagnosis>): string {
    if ds == [] then "healthy" else Join(ds)
  }

  /** The two loops that build the key. */
  method FindingsFingerprint(ds: seq<Diagnosis>) returns (result: string)
    ensures result == Fingerprint(ds)
  {
    hide SeverityString, Join;
    if |ds| == 0 {
      return "healthy";
    }
    var parts := [];
    for i := 0 to |ds|
      invariant |parts| == i && forall j :: 0 <= j < i ==> parts[j] == Part(ds[j])
    {
      parts := parts + [ds[i].rule + ":" + SeverityString(ds[i].severity)];
    }
    result := "";
    for i := 0 to |parts|
      invariant i == 0 ==> result == ""
      invariant i > 0 ==> result == Join(ds[..i])
    {
      if i == 0 {
        SingleJoin(ds[0]);
        assert ds[..1] == [ds[0]];
      } else {
        result := result + "|";
        JoinSnoc(ds[..i], ds[i]);
        assert ds[..i + 1] == ds[..i] + [ds[i]];
      }
      result := result + parts[i];
    }
    assert ds[..|ds|] == ds;
  }

  lemma {:induction false} JoinSnoc(ds: seq<Diagnosis>, d: Diagnosis)
    requires ds != []
    ensures Join(ds + [d]) == Join(ds) + "|" + Part(d)
  {
    hide Part;
    var rest := if |ds| == 1 then [d] else ds[1..] + [d];
    assert (ds + [d])[1..] == rest;
    assert Join(ds + [d]) == Part(ds[0]) + "|" + Join(rest);
    if |ds| == 1 {
      SingleJoin(d);
      SingleJoin(ds[0]);
      assert ds == [ds[0]];
    } else {
      JoinSnoc(ds[1..], d);
      assert Join(ds) == Part(ds[0]) + "|" + Join(ds[1..]);
      hide Join;
      Regroup(Part(ds[0]), Join(ds[1..]), Part(d));
    }
  }

  lemma {:induction false} Regroup(a: string, b: string, c: string)
    ensures a + "|" + (b + "|" + c) == a + "|" + b + "|" + c
  {
  }

  // ---- When the key determines the diagnosis ----

  /** A severity with its separators, as it stands between two parts. */
  function Marker(s: Severity): string {
    match s
    case Info => ":INFO|"
    case Warning => ":WARNING|"
    case Critical => ":CRITICAL|"
  }

  lemma {:induction false} MarkerIs(s: Severity)
    ensures Marker(s) == ":" + SeverityString(s) + "|"
  {
  }

  predicate MarkerAt(text: string, i: nat, s: Severity) {
    i + |Marker(s)| <= |text| && text[i..i + |Marker(s)|] == Marker(s)
  }

  /** A rule name that cannot be mistaken for two parts. */
  ghost predicate Clean(rule: string) {
    forall i: nat, s :: !MarkerAt(rule, i, s)
  }

  /** Inside a marker there is no second colon, and inside a severity no bar. */
  lemma {:induction false} MarkerShape(s: Severity)
    ensures |Marker(s)| >= 2 && Marker(s)[0] == ':' && Marker(s)[|Marker(s)| - 1] == '|'
    ensures forall k :: 1 <= k < |Marker(s)| ==> Marker(s)[k] != ':'
    ensures forall k :: 0 <= k < |SeverityString(s)| ==> SeverityString(s)[k] != ':' && SeverityString(s)[k] != '|'
  {
  }

  lemma {:induction false} MarkerChars(text: string, i: nat, s: Severity)
    ensures MarkerAt(text, i, s) ==> forall k :: 0 <= k < |Marker(s)| ==> text[i + k] == Marker(s)[k]
  {
    if MarkerAt(text, i, s) {
      forall k | 0 <= k < |Marker(s)|
        ensures text[i + k] == Marker(s)[k]
      {
        assert text[i..i + |Marker(s)|][k] == text[i + k];
      }
    }
  }

  lemma {:induction false} Mismatch(text: string, i: nat, s: Severity, k: nat)
    requires k < |Marker(s)| && i + k < |text| && text[i + k] != Marker(s)[k]
    ensures !MarkerAt(text, i, s)
  {
    MarkerChars(text, i, s);
  }

  /** No marker begins inside a clean name that a colon follows. */
  lemma {:induction false} NoneBeforeColon(rule: string, rest: string, i: nat, s: Severity)
    requires Clean(rule) && i < |rule|
    ensures !MarkerAt(rule + ":" + rest, i, s)
  {
    MarkerShape(s);
    var text, m := rule + ":" + rest, |Marker(s)|;
    if i + m <= |rule| {
      assert text[i..i + m] == rule[i..i + m];
      assert !MarkerAt(rule, i, s);
    } else {
      var k := |rule| - i;
      assert text[i + k] == ':' && Marker(s)[k] != ':';
      Mismatch(text, i, s, k);
    }
  }

  /** A single clean part has no marker at all. */
  lemma {:induction false} SinglePart(d: Diagnosis, i: nat, s: Severity)
    requires Clean(d.rule)
    ensures !MarkerAt(Part(d), i, s)
  {
    MarkerShape(s);
    MarkerShape(d.severity);
    var text, m, n := Part(d), |Marker(s)|, |d.rule|;
    if i < n {
      NoneBeforeColon(d.rule, SeverityString(d.severity), i, s);
    } else if i + m <= |text| {
      MarkerChars(text, i, s);
      assert text[i + (m - 1)] == SeverityString(d.severity)[i + m - 1 - n - 1];
    }
  }

  /** Several parts put their first marker right after the first name. */
  lemma {:induction false} FirstMarker(ds: seq<Diagnosis>)
    requires |ds| >= 2
    ensures Join(ds) == ds[0].rule + ":" + (SeverityString(ds[0].severity) + "|" + Join(ds[1..]))
    ensures Join(ds) == ds[0].rule + Marker(ds[0].severity) + Join(ds[1..])
    ensures MarkerAt(Join(ds), |ds[0].rule|, ds[0].severity)
  {
    hide SeverityString;
    var d, rest := ds[0], Join(ds[1..]);
    assert Join(ds) == Part(d) + "|" + rest;
    hide Join;
    MarkerIs(d.severity);
    hide Marker;
    assert Join(ds) == d.rule + Marker(d.severity) + rest;
  }

  lemma {:induction false} SameMarker(text: string, i: nat, s: Severity, t: Severity)
    requires MarkerAt(text, i, s) && MarkerAt(text, i, t)
    ensures s == t
  {
    assert text[i..i + |Marker(s)|][1] == text[i + 1];
    assert text[i..i + |Marker(t)|][1] == text[i + 1];
  }

  lemma {:induction false} SameSingle(a: Diagnosis, b: Diagnosis)
    requires Part(a) == Part(b)
    ensures a == b
  {
    var x, y := SeverityString(a.severity), SeverityString(b.severity);
    assert Part(a)[|Part(a)| - 1] == x[|x| - 1];
    assert Part(b)[|Part(b)| - 1] == y[|y| - 1];
    assert a.rule == Part(a)[..|Part(a)| - |x| - 1];
    assert b.rule == Part(b)[..|Part(b)| - |y| - 1];
  }

  lemma {:induction false} JoinInjective(a: seq<Diagnosis>, b: seq<Diagnosis>)
    requires a != [] && b != [] && Join(a) == Join(b)
    requires (forall i :: 0 <= i < |a| ==> Clean(a[i].rule)) && forall i :: 0 <= i < |b| ==> Clean(b[i].rule)
    ensures a == b
    decreases |a|
  {
    if |a| == 1 && |b| == 1 {
      SameSingle(a[0], b[0]);
    } else if |a| == 1 {
      FirstMarker(b);
      SinglePart(a[0], |b[0].rule|, b[0].severity);
    } else if |b| == 1 {
      FirstMarker(a);
      SinglePart(b[0], |a[0].rule|, a[0].severity);
    } else {
      SameHead(a, b);
      JoinInjective(a[1..], b[1..]);
      assert a == [a[0]] + a[1..] && b == [b[0]] + b[1..];
    }
  }

  lemma {:induction false} SameHead(a: seq<Diagnosis>, b: seq<Diagnosis>)
    requires |a| >= 2 && |b| >= 2 && Join(a) == Join(b)
    requires Clean(a[0].rule) && Clean(b[0].rule)
    ensures a[0] == b[0] && Join(a[1..]) == Join(b[1..])
  {
    FirstMarker(a);
    FirstMarker(b);
    var x, y := a[0], b[0];
    if |x.rule| < |y.rule| {
      NoneBeforeColon(y.rule, SeverityString(y.severity) + "|" + Join(b[1..]), |x.rule|, x.severity);
    } else if |y.rule| < |x.rule| {
      NoneBeforeColon(x.rule, SeverityString(x.severity) + "|" + Join(a[1..]), |y.rule|, y.severity);
    }
    SameMarker(Join(a), |x.rule|, x.severity, y.severity);
    assert x.rule == Join(a)[..|x.rule|] && y.rule == Join(b)[..|y.rule|];
    assert Join(a[1..]) == Join(a)[|x.rule| + |Marker(x.severity)|..];
    assert Join(b[1..]) == Join(b)[|y.rule| + |Marker(y.severity)|..];
  }

  lemma {:induction false} NeverHealthy(ds: seq<Diagnosis>)
    requires ds != []
    ensures Join(ds) != "healthy"
  {
    var n := |ds[0].rule|;
    assert Join(ds)[n] == Part(ds[0])[n] == ':';
  }

  /** Main result: over clean rule names the key determines the whole diagnosis, order
      and emptiness included. */
  lemma {:induction false} FingerprintInjective(a: seq<Diagnosis>, b: seq<Diagnosis>)
    requires (forall i :: 0 <= i < |a| ==> Clean(a[i].rule)) && forall i :: 0 <= i < |b| ==> Clean(b[i].rule)
    requires Fingerprint(a) == Fingerprint(b)
    ensures a == b
  {
    if a != [] && b != [] {
      JoinInjective(a, b);
    } else if a != [] {
      NeverHealthy(a);
    } else if b != [] {
      NeverHealthy(b);
    }
  }

  lemma {:induction false} CleanRecovered(d: Diagnosis, ds: seq<Diagnosis>)
    requires Clean(d.rule) && Fingerprint(ds) == Part(d)
    ensures ds == [d]
  {
    hide Part, Join, Marker, SeverityString, MarkerAt, Clean;
    assert Join([d]) == Part(d) by {
      SingleJoin(d);
    }
    if ds == [] {
      NeverHealthy([d]);
    } else if |ds| == 1 {
      SingleJoin(ds[0]);
      assert ds == [ds[0]];
      SameSingle(ds[0], d);
    } else {
      FirstMarker(ds);
      SinglePart(d, |ds[0].rule|, ds[0].severity);
    }
  }

  lemma {:induction false} SingleJoin(d: Diagnosis)
    ensures Join([d]) == Part(d)
  {
  }

  /** A name that contains a marker reads as two findings. */
  lemma {:induction false} DirtyCollides(rule: string, severity: Severity, i: nat, s: Severity)
    requires MarkerAt(rule, i, s)
    ensures var x, y := Diagnosis(rule[..i], s), Diagnosis(rule[i + |Marker(s)|..], severity);
            Fingerprint([x, y]) == Part(Diagnosis(rule, severity))
  {
    hide SeverityString, Marker, Join;
    var x, y := Diagnosis(rule[..i], s), Diagnosis(rule[i + |Marker(s)|..], severity);
    var m, tail := Marker(s), SeverityString(severity);
    assert rule == x.rule + m + y.rule;
    FirstMarker([x, y]);
    assert [x, y][1..] == [y];
    SingleJoin(y);
    assert x.rule + m + (y.rule + ":" + tail) == x.rule + m + y.rule + ":" + tail;
  }

  /** Cleanness is needed: the key of one finding leads back to it alone exactly when
      its rule name is clean. */
  lemma {:induction false} SingleRecoveredIff(d: Diagnosis)
    ensures Clean(d.rule) <==> forall ds :: Fingerprint(ds) == Part(d) ==> ds == [d]
  {
    hide Part, Join, Marker, SeverityString, MarkerAt, Fingerprint;
    if Clean(d.rule) {
      forall ds: seq<Diagnosis> | Fingerprint(ds) == Part(d)
        ensures ds == [d]
      {
        CleanRecovered(d, ds);
      }
    } else {
      var i: nat, s :| MarkerAt(d.rule, i, s);
      MarkerFits(d.rule, i, s);
      DirtyCollides(d.rule, d.severity, i, s);
      assert Diagnosis(d.rule, d.severity) == d;
      var two := [Diagnosis(d.rule[..i], s), Diagnosis(d.rule[i + |Marker(s)|..], d.severity)];
      assert Fingerprint(two) == Part(d) && |two| != |[d]|;
    }
  }

  lemma {:induction false} MarkerFits(text: string, i: nat, s: Severity)
    requires MarkerAt(text, i, s)
    ensures i + |Marker(s)| <= |text|
  {
    hide Marker;
  }

  /** Without a colon a name is clean, and so are all names the engine uses. */
  lemma {:induction false} NoColonIsClean(rule: string)
    requires ':' !in rule
    ensures Clean(rule)
  {
    forall i: nat, s
      ensures !MarkerAt(rule, i, s)
    {
      MarkerShape(s);
      MarkerChars(rule, i, s);
      assert i < |rule| ==> rule[i + 0] in rule;
    }
  }
}
