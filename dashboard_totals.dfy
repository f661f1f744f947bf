/** The dashboard's whole-set reductions over the filtered records: the KPI
    cards, the defect radar, the defects distribution and the status pie. */
module Totals {
  import opened Seqs
  import opened Records

  // ---------------------------------------------------------------- KPI

  /** The KPI cards. `passRate` is the exact percentage (the card shows it
      rounded to one decimal) and 0 when nothing was passed, failed, aborted
      or left pending. */
  datatype Kpi = Kpi(total: nat, totalPass: nat, totalFail: nat, totalAbort: nat, totalPending: nat, passRate: real)

  /** Percentage `part / whole * 100`, with the source's guard: 0 when `whole` is 0. */
  function Percent(part: nat, whole: nat): (p: real)
    requires part <= whole
    ensures whole == 0 ==> p == 0.0
    ensures 0.0 <= p <= 100.0
    ensures whole > 0 && part == whole ==> p == 100.0
    ensures whole > 0 ==> p * (whole as real) == (part as real) * 100.0
  {
    if whole == 0 then 0.0 else (part as real / whole as real) * 100.0
  }

  function ComputeKpi(rows: seq<Record>): (k: Kpi)
    ensures k.total == |rows|
    ensures k.totalPass == Total(rows, ["pass"]) && k.totalFail == Total(rows, ["fail"])
    ensures k.totalAbort == Total(rows, ["abort"]) && k.totalPending == Total(rows, ["pending"])
    ensures k.totalPass + k.totalFail + k.totalAbort + k.totalPending == 0 ==> k.passRate == 0.0
    ensures k.passRate == Percent(k.totalPass, k.totalPass + k.totalFail + k.totalAbort + k.totalPending)
    ensures 0.0 <= k.passRate <= 100.0
  {
    var pass := Total(rows, ["pass"]);
    var fail := Total(rows, ["fail"]);
    var abort := Total(rows, ["abort"]);
    var pending := Total(rows, ["pending"]);
    Kpi(|rows|, pass, fail, abort, pending, Percent(pass, pass + fail + abort + pending))
  }

  /** The KPI counts of two batches of records add up. */
  lemma KpiAppend(a: seq<Record>, b: seq<Record>)
    ensures ComputeKpi(a + b).total == ComputeKpi(a).total + ComputeKpi(b).total
    ensures ComputeKpi(a + b).totalPass == ComputeKpi(a).totalPass + ComputeKpi(b).totalPass
    ensures ComputeKpi(a + b).totalFail == ComputeKpi(a).totalFail + ComputeKpi(b).totalFail
    ensures ComputeKpi(a + b).totalAbort == ComputeKpi(a).totalAbort + ComputeKpi(b).totalAbort
    ensures ComputeKpi(a + b).totalPending == ComputeKpi(a).totalPending + ComputeKpi(b).totalPending
  {
    TotalAppend(a, b, ["pass"]);
    TotalAppend(a, b, ["fail"]);
    TotalAppend(a, b, ["abort"]);
    TotalAppend(a, b, ["pending"]);
  }

  // ---------------------------------------------------------------- radar

  datatype RadarPoint = RadarPoint(kind: string, count: nat)

  const RadarKinds: seq<string> := ["Major", "Minor", "Critical", "Actual Major", "Actual Minor", "Actual OQL"]
  const RadarFields: seq<string> := ["major", "minor", "critical", "actualMajor", "actualMinor", "actualOql"]

  /** Six points in a fixed order, each the total of one counter. */
  function DefectRadar(rows: seq<Record>): (r: seq<RadarPoint>)
    ensures |r| == 6
    ensures forall i :: 0 <= i < 6 ==> r[i].kind == RadarKinds[i] && r[i].count == Total(rows, [RadarFields[i]])
  {
    [ RadarPoint("Major", Total(rows, ["major"])),
      RadarPoint("Minor", Total(rows, ["minor"])),
      RadarPoint("Critical", Total(rows, ["critical"])),
      RadarPoint("Actual Major", Total(rows, ["actualMajor"])),
      RadarPoint("Actual Minor", Total(rows, ["actualMinor"])),
      RadarPoint("Actual OQL", Total(rows, ["actualOql"])) ]
  }

  // ---------------------------------------------------------------- distribution

  const MajorFields: seq<string> := [
    "pulledTerry", "rawEdge", "weaving", "uncutThread", "stainMajor", "skipStitch", "brokenStitch",
    "runoffStitch", "poorShape", "pleat", "insecureLabel", "missingLabel", "contaminationMajor",
    "slantLabel", "damageFabric", "hole", "looseStitch"]

  const MinorFields: seq<string> := [
    "singleUntrimmedThread", "contaminationMinor", "flyYarn", "dustMark", "stainMinor"]

  datatype Category = Major | Minor

  /** A bar `{name, Major: total}` or `{name, Minor: total}`. */
  datatype DefectBar = DefectBar(name: string, category: Category, total: nat)

  /** `fields.map(k => bar(k, sum(k))).filter(x => x.total > 0)` */
  function Bars(rows: seq<Record>, fields: seq<string>, c: Category): seq<DefectBar> {
    if |fields| == 0 then []
    else
      var t := Total(rows, [fields[0]]);
      (if t > 0 then [DefectBar(fields[0], c, t)] else []) + Bars(rows, fields[1..], c)
  }

  function DefectsDistribution(rows: seq<Record>): seq<DefectBar> {
    Bars(rows, MajorFields, Major) + Bars(rows, MinorFields, Minor)
  }

  function BarNames(bars: seq<DefectBar>): (ns: seq<string>)
    ensures |ns| == |bars| && forall i :: 0 <= i < |bars| ==> ns[i] == bars[i].name
  {
    seq(|bars|, i requires 0 <= i < |bars| => bars[i].name)
  }

  /** Every bar is a non-zero total of a field from the list, with the given
      category, and the bar names follow the list's order. */
  lemma {:induction false} BarsFacts(rows: seq<Record>, fields: seq<string>, c: Category)
    ensures forall b :: b in Bars(rows, fields, c) ==>
      b.total > 0 && b.category == c && b.name in fields && b.total == Total(rows, [b.name])
    ensures IsSubsequence(BarNames(Bars(rows, fields, c)), fields)
  {
    if |fields| > 0 {
      BarsFacts(rows, fields[1..], c);
      var rest := Bars(rows, fields[1..], c);
      var t := Total(rows, [fields[0]]);
      if t > 0 {
        assert BarNames(Bars(rows, fields, c))[1..] == BarNames(rest);
      } else {
        assert Bars(rows, fields, c) == rest;
        SubsequenceDropHead(BarNames(rest), fields);
      }
    }
  }

  /** A field with a non-zero total always gets its bar. */
  lemma {:induction false} BarsComplete(rows: seq<Record>, fields: seq<string>, c: Category, f: string)
    requires f in fields && Total(rows, [f]) > 0
    ensures DefectBar(f, c, Total(rows, [f])) in Bars(rows, fields, c)
  {
    if fields[0] != f {
      BarsComplete(rows, fields[1..], c, f);
    }
  }

  /** The distribution has no zero bar, lists every Major bar before every
      Minor bar, and has a bar for exactly the fields with a non-zero total. */
  lemma DistributionFacts(rows: seq<Record>)
    ensures forall b :: b in DefectsDistribution(rows) ==> b.total > 0 && b.total == Total(rows, [b.name])
    ensures forall i, j :: (0 <= i < j < |DefectsDistribution(rows)| && DefectsDistribution(rows)[j].category == Major
                            ==> DefectsDistribution(rows)[i].category == Major)
    ensures forall b :: b in DefectsDistribution(rows) && b.category == Major ==> b.name in MajorFields
    ensures forall b :: b in DefectsDistribution(rows) && b.category == Minor ==> b.name in MinorFields
    ensures forall f :: f in MajorFields && Total(rows, [f]) > 0 ==> DefectBar(f, Major, Total(rows, [f])) in DefectsDistribution(rows)
    ensures forall f :: f in MinorFields && Total(rows, [f]) > 0 ==> DefectBar(f, Minor, Total(rows, [f])) in DefectsDistribution(rows)
  {
    JoinedBarsFacts(rows, MajorFields, MinorFields);
  }

  /** The same facts for the Major bars of any field list followed by the
      Minor bars of another. */
  lemma JoinedBarsFacts(rows: seq<Record>, majors: seq<string>, minors: seq<string>)
    ensures var d := Bars(rows, majors, Major) + Bars(rows, minors, Minor);
      && (forall b :: b in d ==> b.total > 0 && b.total == Total(rows, [b.name]))
      && (forall i, j :: (0 <= i < j < |d| && d[j].category == Major ==> d[i].category == Major))
      && (forall b :: b in d && b.category == Major ==> b.name in majors)
      && (forall b :: b in d && b.category == Minor ==> b.name in minors)
      && (forall f :: f in majors && Total(rows, [f]) > 0 ==> DefectBar(f, Major, Total(rows, [f])) in d)
      && (forall f :: f in minors && Total(rows, [f]) > 0 ==> DefectBar(f, Minor, Total(rows, [f])) in d)
  {
    var ma := Bars(rows, majors, Major);
    var mi := Bars(rows, minors, Minor);
    BarsFacts(rows, majors, Major);
    BarsFacts(rows, minors, Minor);
    var d := ma + mi;
    forall i, j | 0 <= i < j < |d| && d[j].category == Major ensures d[i].category == Major {
      assert d[i] in ma;
    }
    forall f | f in majors && Total(rows, [f]) > 0 ensures DefectBar(f, Major, Total(rows, [f])) in d {
      BarsComplete(rows, majors, Major, f);
    }
    forall f | f in minors && Total(rows, [f]) > 0 ensures DefectBar(f, Minor, Total(rows, [f])) in d {
      BarsComplete(rows, minors, Minor, f);
    }
  }

  /** The "Major Defects" / "Minor Defects" chart figures:
      `defectsDistribution.reduce((a, c) => a + (c.Major || 0), 0)`. */
  function CategorySum(bars: seq<DefectBar>, c: Category): nat {
    if |bars| == 0 then 0
    else (if bars[0].category == c then bars[0].total else 0) + CategorySum(bars[1..], c)
  }

  lemma {:induction false} CategorySumAppend(a: seq<DefectBar>, b: seq<DefectBar>, c: Category)
    ensures CategorySum(a + b, c) == CategorySum(a, c) + CategorySum(b, c)
  {
    if |a| == 0 {
      assert a + b == b;
    } else {
      assert (a + b)[1..] == a[1..] + b;
      CategorySumAppend(a[1..], b, c);
    }
  }

  /** Splitting off the first counter of a metric splits its total. */
  lemma {:induction false} TotalCons(rows: seq<Record>, f: string, m: Metric)
    ensures Total(rows, [f] + m) == Total(rows, [f]) + Total(rows, m)
  {
    if |rows| > 0 {
      TotalCons(rows[..|rows| - 1], f, m);
      MetricValueAppend(rows[|rows| - 1], [f], m);
    }
  }

  /** Dropping the zero bars loses nothing: the bars of one category add up
      to the total over all of that category's fields. */
  lemma {:induction false} BarsSum(rows: seq<Record>, fields: seq<string>, c: Category, other: Category)
    requires other != c
    ensures CategorySum(Bars(rows, fields, c), c) == Total(rows, fields)
    ensures CategorySum(Bars(rows, fields, c), other) == 0
  {
    if |fields| == 0 {
      TotalEmptyMetric(rows);
    } else {
      BarsSum(rows, fields[1..], c, other);
      var t := Total(rows, [fields[0]]);
      var head := if t > 0 then [DefectBar(fields[0], c, t)] else [];
      CategorySumAppend(head, Bars(rows, fields[1..], c), c);
      CategorySumAppend(head, Bars(rows, fields[1..], c), other);
      TotalCons(rows, fields[0], fields[1..]);
      assert [fields[0]] + fields[1..] == fields;
    }
  }

  lemma {:induction false} TotalEmptyMetric(rows: seq<Record>)
    ensures Total(rows, []) == 0
  {
    if |rows| > 0 {
      TotalEmptyMetric(rows[..|rows| - 1]);
    }
  }

  /** The "Major Defects" figure is the total of all seventeen major-defect
      counters, and "Minor Defects" that of the five minor ones. */
  lemma DistributionKpis(rows: seq<Record>)
    ensures CategorySum(DefectsDistribution(rows), Major) == Total(rows, MajorFields)
    ensures CategorySum(DefectsDistribution(rows), Minor) == Total(rows, MinorFields)
  {
    BarsSum(rows, MajorFields, Major, Minor);
    BarsSum(rows, MinorFields, Minor, Major);
    CategorySumAppend(Bars(rows, MajorFields, Major), Bars(rows, MinorFields, Minor), Major);
    CategorySumAppend(Bars(rows, MajorFields, Major), Bars(rows, MinorFields, Minor), Minor);
  }

  // ---------------------------------------------------------------- pie

  datatype Slice = Slice(name: string, value: nat)

  const PieNames: seq<string> := ["Pass", "Fail", "Abort", "Pending"]

  /** The status pie: Pass, Fail, Abort, Pending from the KPI totals. */
  function StatusPie(k: Kpi): (s: seq<Slice>)
    ensures |s| == 4
    ensures forall i :: 0 <= i < 4 ==> s[i].name == PieNames[i]
    ensures s[0].value == k.totalPass && s[1].value == k.totalFail
    ensures s[2].value == k.totalAbort && s[3].value == k.totalPending
    ensures s[0].value + s[1].value + s[2].value + s[3].value
         == k.totalPass + k.totalFail + k.totalAbort + k.totalPending
  {
    [Slice("Pass", k.totalPass), Slice("Fail", k.totalFail), Slice("Abort", k.totalAbort), Slice("Pending", k.totalPending)]
  }

  /** On the dashboard's KPI, slice i of the pie is the total of the outcome
      counter it is named after, so the four slices add up to every record's
      pass, fail, abort and pending counts. */
  lemma StatusPieOfRows(rows: seq<Record>)
    ensures forall i :: 0 <= i < 4 ==> StatusPie(ComputeKpi(rows))[i].value == Total(rows, [PieCounters[i]])
  {
  }

  const PieCounters: seq<string> := ["pass", "fail", "abort", "pending"]
}
