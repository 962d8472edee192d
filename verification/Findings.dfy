/** Diagnostic findings and the order in which a report presents them. */
module Findings {
  import opened Options
  import opened FindingsKey
  import opened Sorting

  /** eta is in nanoseconds. */
  datatype Finding = Finding(severity: Severity, rule: string, eta: Option<int>,
                             value: real, threshold: real, process: string)

  function Level(s: Severity): nat {
    match s
    case Info => 0
    case Warning => 1
    case Critical => 2
  }

  function ThresholdRatio(f: Finding): real {
    if f.threshold == 0.0 then 0.0 else f.value / f.threshold
  }

  /** More severe first; then what has an ETA before what has none, the shorter one
      first; then what exceeds its threshold most. */
  predicate Outranks(a: Finding, b: Finding) {
    if a.severity != b.severity then Level(a.severity) > Level(b.severity)
    else if a.eta.Some? && b.eta.Some? then a.eta.value < b.eta.value
    else if a.eta.Some? then true
    else if b.eta.Some? then false
    else ThresholdRatio(a) > ThresholdRatio(b)
  }

  lemma {:induction false} OutranksIsOrder()
    ensures StrictWeakOrder(Outranks)
  {
    hide ThresholdRatio;
    forall x, y, z
      ensures !Outranks(x, x)
      ensures Outranks(x, y) && Outranks(y, z) ==> Outranks(x, z)
      ensures !Outranks(x, y) && !Outranks(y, z) ==> !Outranks(x, z)
    {
    }
  }

  /** The library's stable sort, applied in place. */
  method RankFindings(findings: array<Finding>)
    modifies findings
    ensures findings[..] == StableSort(old(findings[..]), Outranks)
    ensures StablySorts(findings[..], old(findings[..]), Outranks)
  {
    OutranksIsOrder();
    StableSortCorrect(findings[..], Outranks);
    var ranked := StableSort(findings[..], Outranks);
    forall i | 0 <= i < findings.Length {
      findings[i] := ranked[i];
    }
    assert findings[..] == ranked;
  }

  /** The order of a report is determined by its findings: whoever orders them by rank
      and leaves ties alone gets this one. */
  lemma {:induction false} RankingUnique(findings: seq<Finding>, ranked: seq<Finding>)
    requires StablySorts(ranked, findings, Outranks)
    ensures ranked == StableSort(findings, Outranks)
  {
    hide StableSort, Outranks;
    OutranksIsOrder();
    StableSortCorrect(findings, Outranks);
    StableSortUnique(ranked, StableSort(findings, Outranks), Outranks);
  }

  /** What ranking means for two findings of a report, the first one above the other. */
  lemma {:induction false} RankedPair(findings: seq<Finding>, i: nat, j: nat)
    requires i < j < |findings|
    ensures var r := StableSort(findings, Outranks);
            && Level(r[i].severity) >= Level(r[j].severity)
            && (r[i].severity == r[j].severity && r[j].eta.Some? ==> r[i].eta.Some? && r[i].eta.value <= r[j].eta.value)
            && (r[i].severity == r[j].severity && r[i].eta.None? && r[i].threshold != 0.0 && r[j].threshold != 0.0 ==>
                  r[i].value / r[i].threshold >= r[j].value / r[j].threshold)
            && (r[i].severity == r[j].severity && r[i].eta.None? && r[i].threshold == 0.0 && r[j].threshold != 0.0 ==>
                  0.0 >= r[j].value / r[j].threshold)
            && (r[i].severity == r[j].severity && r[i].eta.None? && r[i].threshold != 0.0 && r[j].threshold == 0.0 ==>
                  r[i].value / r[i].threshold >= 0.0)
  {
    OutranksIsOrder();
    StableSortCorrect(findings, Outranks);
    hide StableSort, ThresholdRatio;
    var r := StableSort(findings, Outranks);
    assert !Outranks(r[j], r[i]);
  }

  /** The highest level among findings; none count as informational. */
  function Worst(fs: seq<Finding>): nat {
    if fs == [] then 0
    else if Level(fs[0].severity) > Worst(fs[1..]) then Level(fs[0].severity) else Worst(fs[1..])
  }

  lemma {:induction false} WorstIsMaximum(fs: seq<Finding>)
    ensures forall f :: f in fs ==> Level(f.severity) <= Worst(fs)
    ensures fs != [] ==> exists f :: f in fs && Level(f.severity) == Worst(fs)
  {
    if fs != [] {
      WorstIsMaximum(fs[1..]);
      assert fs == [fs[0]] + fs[1..];
      if Level(fs[0].severity) >= Worst(fs[1..]) {
        assert fs[0] in fs;
      } else {
        var f :| f in fs[1..] && Level(f.severity) == Worst(fs[1..]);
        assert f in fs;
      }
    }
  }

  /** The headline of a report is one of its worst findings. */
  lemma {:induction false} TopIsWorst(findings: seq<Finding>)
    requires findings != []
    ensures Level(StableSort(findings, Outranks)[0].severity) == Worst(findings)
  {
    var r := StableSort(findings, Outranks);
    OutranksIsOrder();
    StableSortCorrect(findings, Outranks);
    hide StableSort, Outranks, TiedWith;
    WorstIsMaximum(findings);
    assert r[0] in multiset(r);
    assert r[0] in findings;
    var f :| f in findings && Level(f.severity) == Worst(findings);
    assert f in multiset(r);
    var k :| 0 <= k < |r| && r[k] == f;
    if k > 0 {
      RankedPair(findings, 0, k);
    }
  }

  // ---- Counting ----

  function CountOf(fs: seq<Finding>, s: Severity): nat {
    if fs == [] then 0
    else CountOf(fs[..|fs| - 1], s) + if fs[|fs| - 1].severity == s then 1 else 0
  }

  method CountBySeverity(findings: seq<Finding>) returns (critical: nat, warning: nat, info: nat)
    ensures critical == CountOf(findings, Critical) && warning == CountOf(findings, Warning) && info == CountOf(findings, Info)
    ensures critical + warning + info == |findings|
  {
    critical, warning, info := 0, 0, 0;
    for i := 0 to |findings|
      invariant critical == CountOf(findings[..i], Critical)
      invariant warning == CountOf(findings[..i], Warning)
      invariant info == CountOf(findings[..i], Info)
      invariant critical + warning + info == i
    {
      match findings[i].severity {
        case Critical => critical := critical + 1;
        case Warning => warning := warning + 1;
        case Info => info := info + 1;
      }
      assert findings[..i + 1][..i] == findings[..i];
    }
    assert findings[..|findings|] == findings;
  }

  method HasCritical(findings: seq<Finding>) returns (r: bool)
    ensures r <==> CountOf(findings, Critical) > 0
    ensures r <==> Worst(findings) == Level(Critical)
  {
    for i := 0 to |findings|
      invariant CountOf(findings[..i], Critical) == 0
      invariant forall j :: 0 <= j < i ==> findings[j].severity != Critical
    {
      assert findings[..i + 1][..i] == findings[..i];
      if findings[i].severity == Critical {
        CountGrows(findings, i + 1, Critical);
        WorstIsMaximum(findings);
        assert findings[i] in findings;
        return true;
      }
    }
    assert findings[..|findings|] == findings;
    WorstIsMaximum(findings);
    r := false;
  }

  lemma {:induction false} CountGrows(fs: seq<Finding>, k: nat, s: Severity)
    requires k <= |fs|
    ensures CountOf(fs[..k], s) <= CountOf(fs, s)
    decreases |fs| - k
  {
    if k < |fs| {
      assert fs[..k + 1][..k] == fs[..k];
      CountGrows(fs, k + 1, s);
    } else {
      assert fs[..k] == fs;
    }
  }
}
