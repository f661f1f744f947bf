/** The dashboard's seven group-by summaries. Each fills a dictionary keyed by
    month or inspector while walking the filtered records, creating a group
    the first time its key is met, and then lists the groups in the order
    their keys were first met. */
module Grouping {
  import opened Seqs
  import opened Records
  import opened Totals

  /** One output row: the key and one sum per metric of the chart. */
  datatype Group = Group(key: string, sums: seq<nat>)

  /** What a summary groups by and what it sums in each group. */
  datatype Chart = Chart(dim: Dimension, metrics: seq<Metric>)

  /** `monthlyStats`: pass, fail, abort, pending per month. */
  const MonthlyStats: Chart := Chart(ByMonth, [["pass"], ["fail"], ["abort"], ["pending"]])
  /** `inspectorStats`: pass, fail per inspector. */
  const InspectorStats: Chart := Chart(ByInspector, [["pass"], ["fail"]])
  /** `criticalTrend`: critical per month. */
  const CriticalTrend: Chart := Chart(ByMonth, [["critical"]])
  /** `defectsRatio`: Major (major), Minor (minor) per month. */
  const DefectsRatio: Chart := Chart(ByMonth, [["major"], ["minor"]])
  /** `inspectorEfficiency` before its pass rate: pass, fail and
      total = pass + fail + abort + pending per inspector. */
  const EfficiencyTotals: Chart := Chart(ByInspector, [["pass"], ["fail"], ["pass", "fail", "abort", "pending"]])
  /** `defectsByInspector`: major, minor, critical per inspector. */
  const DefectsByInspector: Chart := Chart(ByInspector, [["major"], ["minor"], ["critical"]])
  /** `statusTrend`: abort, pending per month. */
  const StatusTrend: Chart := Chart(ByMonth, [["abort"], ["pending"]])

  /** The group keys in first-seen order. */
  function GroupKeys(rows: seq<Record>, d: Dimension): seq<string> {
    Distinct(KeysOf(rows, d))
  }

  /** The sum of metric `m` over the records whose key is `k`. */
  function GroupTotal(rows: seq<Record>, d: Dimension, k: string, m: Metric): nat {
    if |rows| == 0 then 0
    else
      var last := rows[|rows| - 1];
      GroupTotal(rows[..|rows| - 1], d, k, m) + (if KeyOf(last, d) == k then MetricValue(last, m) else 0)
  }

  function GroupSums(rows: seq<Record>, d: Dimension, k: string, ms: seq<Metric>): (s: seq<nat>)
    ensures |s| == |ms|
  {
    seq(|ms|, j requires 0 <= j < |ms| => GroupTotal(rows, d, k, ms[j]))
  }

  function GroupsFor(ks: seq<string>, rows: seq<Record>, c: Chart): (gs: seq<Group>)
    ensures |gs| == |ks|
  {
    seq(|ks|, i requires 0 <= i < |ks| => Group(ks[i], GroupSums(rows, c.dim, ks[i], c.metrics)))
  }

  /** What a summary is meant to be: one group per distinct key, in first-seen
      order, holding the per-group sums. */
  function Summary(rows: seq<Record>, c: Chart): seq<Group> {
    GroupsFor(GroupKeys(rows, c.dim), rows, c)
  }

  function MetricValues(r: Record, ms: seq<Metric>): (v: seq<nat>)
    ensures |v| == |ms|
  {
    seq(|ms|, j requires 0 <= j < |ms| => MetricValue(r, ms[j]))
  }

  /** The `grouped[key].x += ...` lines of one record, field by field. */
  function Plus(a: seq<nat>, b: seq<nat>): (s: seq<nat>)
    requires |a| == |b|
    ensures |s| == |a| && forall j :: 0 <= j < |a| ==> s[j] == a[j] + b[j]
  {
    seq(|a|, j requires 0 <= j < |a| => a[j] + b[j])
  }

  /** A fresh group's counters, `{key, pass: 0, fail: 0, ...}`. */
  function Zeros(n: nat): (s: seq<nat>)
    ensures |s| == n && forall j :: 0 <= j < n ==> s[j] == 0
  {
    seq(n, j requires 0 <= j < n => 0)
  }

  lemma GroupTotalSnoc(rows: seq<Record>, n: nat, d: Dimension, k: string, m: Metric)
    requires n < |rows|
    ensures GroupTotal(rows[..n + 1], d, k, m)
         == GroupTotal(rows[..n], d, k, m) + (if KeyOf(rows[n], d) == k then MetricValue(rows[n], m) else 0)
  {
    assert rows[..n + 1][..n] == rows[..n];
  }

  /** The state of the grouping loop after the first `i` records: the key
      list is the first-seen list of their keys, the dictionary holds exactly
      those keys, each with its group's sums, and every other key's group is
      still empty. */
  ghost predicate LoopState(rows: seq<Record>, c: Chart, i: nat, grouped: map<string, seq<nat>>, order: seq<string>)
    requires i <= |rows|
  {
    && order == GroupKeys(rows[..i], c.dim)
    && (forall k :: k in grouped <==> k in order)
    && (forall k :: k in grouped ==> grouped[k] == GroupSums(rows[..i], c.dim, k, c.metrics))
    && (forall k, j :: k !in grouped && 0 <= j < |c.metrics| ==> GroupTotal(rows[..i], c.dim, k, c.metrics[j]) == 0)
  }

  /** The record's key is appended to the key list the first time it is met. */
  lemma StepOrder(rows: seq<Record>, d: Dimension, i: nat, seen: bool, o0: seq<string>, o1: seq<string>)
    requires i < |rows| && o0 == GroupKeys(rows[..i], d)
    requires seen <==> KeyOf(rows[i], d) in o0
    requires o1 == if seen then o0 else o0 + [KeyOf(rows[i], d)]
    ensures o1 == GroupKeys(rows[..i + 1], d)
  {
    KeysOfSnoc(rows, i, d);
    DistinctSnoc(KeysOf(rows[..i], d), KeyOf(rows[i], d));
  }

  /** The record's own group gains its metric values. */
  lemma StepOwnGroup(rows: seq<Record>, c: Chart, i: nat, before: seq<nat>)
    requires i < |rows| && |before| == |c.metrics|
    requires forall j :: 0 <= j < |c.metrics| ==> before[j] == GroupTotal(rows[..i], c.dim, KeyOf(rows[i], c.dim), c.metrics[j])
    ensures Plus(before, MetricValues(rows[i], c.metrics)) == GroupSums(rows[..i + 1], c.dim, KeyOf(rows[i], c.dim), c.metrics)
  {
    forall j | 0 <= j < |c.metrics|
      ensures Plus(before, MetricValues(rows[i], c.metrics))[j] == GroupSums(rows[..i + 1], c.dim, KeyOf(rows[i], c.dim), c.metrics)[j]
    {
      GroupTotalSnoc(rows, i, c.dim, KeyOf(rows[i], c.dim), c.metrics[j]);
    }
  }

  /** Every other group is unchanged by the record. */
  lemma StepOtherGroup(rows: seq<Record>, c: Chart, i: nat, k: string, j: nat)
    requires i < |rows| && k != KeyOf(rows[i], c.dim) && j < |c.metrics|
    ensures GroupTotal(rows[..i + 1], c.dim, k, c.metrics[j]) == GroupTotal(rows[..i], c.dim, k, c.metrics[j])
  {
    GroupTotalSnoc(rows, i, c.dim, k, c.metrics[j]);
  }

  /** One iteration of the `forEach` keeps `LoopState`. */
  lemma LoopStep(rows: seq<Record>, c: Chart, i: nat,
                 g0: map<string, seq<nat>>, o0: seq<string>,
                 g1: map<string, seq<nat>>, o1: seq<string>)
    requires i < |rows| && LoopState(rows, c, i, g0, o0)
    requires o1 == if KeyOf(rows[i], c.dim) in g0 then o0 else o0 + [KeyOf(rows[i], c.dim)]
    requires g1 == g0[KeyOf(rows[i], c.dim) :=
      Plus(if KeyOf(rows[i], c.dim) in g0 then g0[KeyOf(rows[i], c.dim)] else Zeros(|c.metrics|),
           MetricValues(rows[i], c.metrics))]
    ensures o1 == GroupKeys(rows[..i + 1], c.dim)
    ensures (forall k :: k in g1 <==> k in o1)
    ensures forall k :: k in g1 ==> g1[k] == GroupSums(rows[..i + 1], c.dim, k, c.metrics)
    ensures (forall k, j :: k !in g1 && 0 <= j < |c.metrics| ==> GroupTotal(rows[..i + 1], c.dim, k, c.metrics[j]) == 0)
  {
    var key := KeyOf(rows[i], c.dim);
    var ms := c.metrics;
    StepOrder(rows, c.dim, i, key in g0, o0, o1);
    var before := if key in g0 then g0[key] else Zeros(|ms|);
    StepOwnGroup(rows, c, i, before);
    forall k | k in g1 && k != key ensures g1[k] == GroupSums(rows[..i + 1], c.dim, k, ms) {
      forall j | 0 <= j < |ms| ensures g1[k][j] == GroupSums(rows[..i + 1], c.dim, k, ms)[j] {
        StepOtherGroup(rows, c, i, k, j);
      }
    }
    forall k, j | k !in g1 && 0 <= j < |ms| ensures GroupTotal(rows[..i + 1], c.dim, k, ms[j]) == 0 {
      StepOtherGroup(rows, c, i, k, j);
    }
  }

  /** The grouping loop: a dictionary from key to counters and the list of
      keys in insertion order, then `Object.values(grouped)`. */
  method Summarize(rows: seq<Record>, c: Chart) returns (groups: seq<Group>)
    ensures groups == Summary(rows, c)
  {
    var grouped: map<string, seq<nat>> := map[];
    var order: seq<string> := [];
    var i := 0;
    while i < |rows|
      invariant 0 <= i <= |rows|
      invariant LoopState(rows, c, i, grouped, order)
    {
      var r := rows[i];
      var key := KeyOf(r, c.dim);
      ghost var g0, o0 := grouped, order;
      if key !in grouped {
        grouped := grouped[key := Zeros(|c.metrics|)];
        order := order + [key];
      }
      grouped := grouped[key := Plus(grouped[key], MetricValues(r, c.metrics))];
      LoopStep(rows, c, i, g0, o0, grouped, order);
      i := i + 1;
    }
    assert rows[..i] == rows;
    groups := [];
    var n := 0;
    while n < |order|
      invariant 0 <= n <= |order|
      invariant groups == GroupsFor(order[..n], rows, c)
    {
      assert order[n] in grouped;
      groups := groups + [Group(order[n], grouped[order[n]])];
      n := n + 1;
    }
    assert order[..n] == order;
  }

  // ---------------------------------------------------------------- shape

  /** A summary has one group per distinct key: its keys are pairwise
      distinct, a key is listed exactly when some record carries it, and keys
      are listed in the order in which the records first show them. */
  lemma SummaryKeys(rows: seq<Record>, c: Chart)
    ensures |Summary(rows, c)| == |GroupKeys(rows, c.dim)|
    ensures forall i :: 0 <= i < |Summary(rows, c)| ==> Summary(rows, c)[i].key == GroupKeys(rows, c.dim)[i]
    ensures NoDuplicates(GroupKeys(rows, c.dim))
    ensures forall k :: k in GroupKeys(rows, c.dim) <==> k in KeysOf(rows, c.dim)
    ensures forall g :: g in Summary(rows, c) ==> |g.sums| == |c.metrics|
  {
    DistinctNoDuplicates(KeysOf(rows, c.dim));
    forall k ensures k in GroupKeys(rows, c.dim) <==> k in KeysOf(rows, c.dim) {
      DistinctMembership(KeysOf(rows, c.dim), k);
    }
  }

  /** First-seen order: the record that first shows the key of an earlier
      group comes before the record that first shows the key of a later one. */
  lemma SummaryFirstSeen(rows: seq<Record>, c: Chart, i: nat, j: nat)
    requires i < j < |Summary(rows, c)|
    ensures Summary(rows, c)[i].key in KeysOf(rows, c.dim) && Summary(rows, c)[j].key in KeysOf(rows, c.dim)
    ensures FirstIndex(KeysOf(rows, c.dim), Summary(rows, c)[i].key) < FirstIndex(KeysOf(rows, c.dim), Summary(rows, c)[j].key)
  {
    DistinctFirstSeenOrder(KeysOf(rows, c.dim), i, j);
  }

  // ---------------------------------------------------------------- reconciliation

  /** The sum of the groups' totals of `m`, over the keys `ks`. */
  function KeySum(ks: seq<string>, rows: seq<Record>, d: Dimension, m: Metric): nat {
    if |ks| == 0 then 0
    else KeySum(ks[..|ks| - 1], rows, d, m) + GroupTotal(rows, d, ks[|ks| - 1], m)
  }

  /** A key that no record carries has an empty group. */
  lemma {:induction false} GroupTotalAbsent(rows: seq<Record>, d: Dimension, k: string, m: Metric)
    requires k !in KeysOf(rows, d)
    ensures GroupTotal(rows, d, k, m) == 0
  {
    if |rows| > 0 {
      var n := |rows| - 1;
      KeysOfSnoc(rows, n, d);
      assert rows[..n + 1] == rows;
      GroupTotalAbsent(rows[..n], d, k, m);
    }
  }

  /** One more record adds its metric to exactly one of a list of distinct keys. */
  lemma {:induction false} KeySumSnoc(ks: seq<string>, rows: seq<Record>, r: Record, d: Dimension, m: Metric)
    requires NoDuplicates(ks)
    ensures KeySum(ks, rows + [r], d, m) == KeySum(ks, rows, d, m) + (if KeyOf(r, d) in ks then MetricValue(r, m) else 0)
  {
    assert (rows + [r])[..|rows|] == rows;
    if |ks| > 0 {
      var init := ks[..|ks| - 1];
      assert NoDuplicates(init);
      KeySumSnoc(init, rows, r, d, m);
      assert ks == init + [ks[|ks| - 1]];
      if KeyOf(r, d) in init {
        var p :| 0 <= p < |init| && init[p] == KeyOf(r, d);
        assert ks[p] != ks[|ks| - 1];
      }
    }
  }

  /** Grouping loses and duplicates nothing: the groups' totals of a metric
      add up to the metric's total over all records. */
  lemma {:induction false} GroupsReconcile(rows: seq<Record>, d: Dimension, m: Metric)
    ensures KeySum(GroupKeys(rows, d), rows, d, m) == Total(rows, m)
  {
    if |rows| > 0 {
      var n := |rows| - 1;
      var init := rows[..n];
      var r := rows[n];
      assert rows == init + [r];
      GroupsReconcile(init, d, m);
      var ks := GroupKeys(init, d);
      var key := KeyOf(r, d);
      KeysOfSnoc(rows, n, d);
      assert rows[..n + 1] == rows;
      DistinctSnoc(KeysOf(init, d), key);
      DistinctNoDuplicates(KeysOf(init, d));
      KeySumSnoc(ks, init, r, d, m);
      if key !in ks {
        DistinctMembership(KeysOf(init, d), key);
        GroupTotalAbsent(init, d, key, m);
        assert (ks + [key])[..|ks|] == ks;
      }
    }
  }

  /** The sum of one output column, `groups.reduce((a, g) => a + g.x, 0)`. */
  function ColumnSum(groups: seq<Group>, j: nat): nat
    requires forall g :: g in groups ==> j < |g.sums|
  {
    if |groups| == 0 then 0
    else ColumnSum(groups[..|groups| - 1], j) + groups[|groups| - 1].sums[j]
  }

  lemma {:induction false} ColumnSumGroupsFor(ks: seq<string>, rows: seq<Record>, c: Chart, j: nat)
    requires j < |c.metrics|
    ensures forall g :: g in GroupsFor(ks, rows, c) ==> j < |g.sums|
    ensures ColumnSum(GroupsFor(ks, rows, c), j) == KeySum(ks, rows, c.dim, c.metrics[j])
  {
    if |ks| > 0 {
      var init := ks[..|ks| - 1];
      assert GroupsFor(ks, rows, c)[..|ks| - 1] == GroupsFor(init, rows, c);
      ColumnSumGroupsFor(init, rows, c, j);
    }
  }

  /** Column `j` of any summary adds up to the total of the chart's metric `j`. */
  lemma SummaryReconciles(rows: seq<Record>, c: Chart, j: nat)
    requires j < |c.metrics|
    ensures forall g :: g in Summary(rows, c) ==> j < |g.sums|
    ensures ColumnSum(Summary(rows, c), j) == Total(rows, c.metrics[j])
  {
    ColumnSumGroupsFor(GroupKeys(rows, c.dim), rows, c, j);
    GroupsReconcile(rows, c.dim, c.metrics[j]);
  }

  /** The monthly pass, fail, abort and pending columns add up to the KPI totals. */
  lemma MonthlyStatsMatchKpi(rows: seq<Record>)
    ensures forall g :: g in Summary(rows, MonthlyStats) ==> |g.sums| == 4
    ensures ColumnSum(Summary(rows, MonthlyStats), 0) == ComputeKpi(rows).totalPass
    ensures ColumnSum(Summary(rows, MonthlyStats), 1) == ComputeKpi(rows).totalFail
    ensures ColumnSum(Summary(rows, MonthlyStats), 2) == ComputeKpi(rows).totalAbort
    ensures ColumnSum(Summary(rows, MonthlyStats), 3) == ComputeKpi(rows).totalPending
  {
    SummaryKeys(rows, MonthlyStats);
    SummaryReconciles(rows, MonthlyStats, 0);
    SummaryReconciles(rows, MonthlyStats, 1);
    SummaryReconciles(rows, MonthlyStats, 2);
    SummaryReconciles(rows, MonthlyStats, 3);
  }

  /** The per-inspector pass and fail columns add up to the KPI totals. */
  lemma InspectorStatsMatchKpi(rows: seq<Record>)
    ensures forall g :: g in Summary(rows, InspectorStats) ==> |g.sums| == 2
    ensures ColumnSum(Summary(rows, InspectorStats), 0) == ComputeKpi(rows).totalPass
    ensures ColumnSum(Summary(rows, InspectorStats), 1) == ComputeKpi(rows).totalFail
  {
    SummaryKeys(rows, InspectorStats);
    SummaryReconciles(rows, InspectorStats, 0);
    SummaryReconciles(rows, InspectorStats, 1);
  }

  /** The month- and inspector-based defect summaries agree with the radar:
      the "Critical" figure of the critical trend, the "Major"/"Minor" figures
      of the ratio chart and the per-inspector defect columns. */
  lemma DefectSummariesMatchRadar(rows: seq<Record>)
    ensures forall g :: g in Summary(rows, CriticalTrend) ==> |g.sums| == 1
    ensures forall g :: g in Summary(rows, DefectsRatio) ==> |g.sums| == 2
    ensures forall g :: g in Summary(rows, DefectsByInspector) ==> |g.sums| == 3
    ensures ColumnSum(Summary(rows, CriticalTrend), 0) == DefectRadar(rows)[2].count
    ensures ColumnSum(Summary(rows, DefectsRatio), 0) == DefectRadar(rows)[0].count
    ensures ColumnSum(Summary(rows, DefectsRatio), 1) == DefectRadar(rows)[1].count
    ensures ColumnSum(Summary(rows, DefectsByInspector), 0) == DefectRadar(rows)[0].count
    ensures ColumnSum(Summary(rows, DefectsByInspector), 1) == DefectRadar(rows)[1].count
    ensures ColumnSum(Summary(rows, DefectsByInspector), 2) == DefectRadar(rows)[2].count
  {
    SummaryKeys(rows, CriticalTrend);
    SummaryKeys(rows, DefectsRatio);
    SummaryKeys(rows, DefectsByInspector);
    SummaryReconciles(rows, CriticalTrend, 0);
    SummaryReconciles(rows, DefectsRatio, 0);
    SummaryReconciles(rows, DefectsRatio, 1);
    SummaryReconciles(rows, DefectsByInspector, 0);
    SummaryReconciles(rows, DefectsByInspector, 1);
    SummaryReconciles(rows, DefectsByInspector, 2);
  }

  /** The abort and pending trend columns add up to the KPI totals. */
  lemma StatusTrendMatchesKpi(rows: seq<Record>)
    ensures forall g :: g in Summary(rows, StatusTrend) ==> |g.sums| == 2
    ensures ColumnSum(Summary(rows, StatusTrend), 0) == ComputeKpi(rows).totalAbort
    ensures ColumnSum(Summary(rows, StatusTrend), 1) == ComputeKpi(rows).totalPending
  {
    SummaryKeys(rows, StatusTrend);
    SummaryReconciles(rows, StatusTrend, 0);
    SummaryReconciles(rows, StatusTrend, 1);
  }

  // ---------------------------------------------------------------- efficiency

  /** One `inspectorEfficiency` row. */
  datatype Efficiency = Efficiency(inspectorName: string, pass: nat, fail: nat, total: nat, passRate: real)

  /** A group's total of a two-part metric is the sum of the parts' totals. */
  lemma {:induction false} GroupTotalSplit(rows: seq<Record>, d: Dimension, k: string, m1: Metric, m2: Metric)
    ensures GroupTotal(rows, d, k, m1 + m2) == GroupTotal(rows, d, k, m1) + GroupTotal(rows, d, k, m2)
  {
    if |rows| > 0 {
      GroupTotalSplit(rows[..|rows| - 1], d, k, m1, m2);
      MetricValueAppend(rows[|rows| - 1], m1, m2);
    }
  }

  /** A group's `total` is its pass + fail + abort + pending. */
  lemma EfficiencyTotal(rows: seq<Record>, k: string)
    ensures GroupTotal(rows, ByInspector, k, ["pass", "fail", "abort", "pending"])
         == GroupTotal(rows, ByInspector, k, ["pass"]) + GroupTotal(rows, ByInspector, k, ["fail"])
          + GroupTotal(rows, ByInspector, k, ["abort"]) + GroupTotal(rows, ByInspector, k, ["pending"])
  {
    assert ["pass", "fail", "abort", "pending"] == ["pass"] + (["fail"] + (["abort"] + ["pending"]));
    GroupTotalSplit(rows, ByInspector, k, ["pass"], ["fail"] + (["abort"] + ["pending"]));
    GroupTotalSplit(rows, ByInspector, k, ["fail"], ["abort"] + ["pending"]);
    GroupTotalSplit(rows, ByInspector, k, ["abort"], ["pending"]);
  }

  /** `inspectorEfficiency`: the per-inspector totals, then each group's pass
      rate, 0 for a group whose total is 0. */
  method InspectorEfficiency(rows: seq<Record>) returns (effs: seq<Efficiency>)
    ensures |effs| == |GroupKeys(rows, ByInspector)|
    ensures forall i :: 0 <= i < |effs| ==>
      var k := GroupKeys(rows, ByInspector)[i];
      && effs[i].inspectorName == k
      && effs[i].pass == GroupTotal(rows, ByInspector, k, ["pass"])
      && effs[i].fail == GroupTotal(rows, ByInspector, k, ["fail"])
      && effs[i].total == GroupTotal(rows, ByInspector, k, ["pass"]) + GroupTotal(rows, ByInspector, k, ["fail"])
                         + GroupTotal(rows, ByInspector, k, ["abort"]) + GroupTotal(rows, ByInspector, k, ["pending"])
      && effs[i].pass <= effs[i].total
      && (effs[i].total == 0 ==> effs[i].passRate == 0.0)
      && effs[i].passRate == Percent(effs[i].pass, effs[i].total)
      && 0.0 <= effs[i].passRate <= 100.0
  {
    var groups := Summarize(rows, EfficiencyTotals);
    var ks := GroupKeys(rows, ByInspector);
    forall i | 0 <= i < |ks|
      ensures groups[i].sums[0] <= groups[i].sums[2]
      ensures groups[i].sums[2] == GroupTotal(rows, ByInspector, ks[i], ["pass"]) + GroupTotal(rows, ByInspector, ks[i], ["fail"])
                                 + GroupTotal(rows, ByInspector, ks[i], ["abort"]) + GroupTotal(rows, ByInspector, ks[i], ["pending"])
    {
      EfficiencyTotal(rows, ks[i]);
    }
    effs := seq(|groups|, i requires 0 <= i < |groups| && |groups[i].sums| == 3 && groups[i].sums[0] <= groups[i].sums[2] =>
      Efficiency(groups[i].key, groups[i].sums[0], groups[i].sums[1], groups[i].sums[2],
                 Percent(groups[i].sums[0], groups[i].sums[2])));
  }
}
