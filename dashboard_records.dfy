/** The inspection records the dashboard works on: the record as fetched, the
    cleaning step that fills in missing labels, counters read with "absent
    counts as 0", and the grouping keys. */
module Records {
  import opened Seqs

  /** The label given to a missing month, inspector or status. */
  const SelfSet: string := "Self Set"

  /** A record as the server sends it. A label field may be missing (`None`)
      or empty; the year may be missing or 0. `counters` holds the numeric
      fields (pass, fail, major, pulledTerry, ...) that are present. */
  datatype RawRecord = RawRecord(
    year: Option<int>,
    month: Option<string>,
    inspectorName: Option<string>,
    inspectionStatus: Option<string>,
    inspectionDate: string,
    counters: map<string, nat>)

  /** A record after cleaning: every label is present and the year is set. */
  datatype Record = Record(
    year: int,
    month: string,
    inspectorName: string,
    inspectionStatus: string,
    inspectionDate: string,
    counters: map<string, nat>)

  /** JavaScript truthiness of a label that may be missing: present and not
      the empty string. `Table.Truthy` is the same test on any field value. */
  predicate LabelTruthy(s: Option<string>) {
    s.Some? && s.value != ""
  }

  /** `s || "Self Set"` on a label that is present. */
  function Fallback(s: string): string {
    if s != "" then s else SelfSet
  }

  /** The cleaning step of the fetch: `year: d.year || <year of inspectionDate>`,
      and `month`, `inspectorName`, `inspectionStatus` default to "Self Set".
      `yearOf` is the year the runtime's date parser gives an inspection date. */
  function Clean(raw: RawRecord, yearOf: string -> int): (r: Record)
    ensures r.month != "" && r.inspectorName != "" && r.inspectionStatus != ""
    ensures LabelTruthy(raw.month) ==> r.month == raw.month.value
    ensures !LabelTruthy(raw.month) ==> r.month == SelfSet
    ensures LabelTruthy(raw.inspectorName) ==> r.inspectorName == raw.inspectorName.value
    ensures !LabelTruthy(raw.inspectorName) ==> r.inspectorName == SelfSet
    ensures LabelTruthy(raw.inspectionStatus) ==> r.inspectionStatus == raw.inspectionStatus.value
    ensures !LabelTruthy(raw.inspectionStatus) ==> r.inspectionStatus == SelfSet
    ensures raw.year.Some? && raw.year.value != 0 ==> r.year == raw.year.value
    ensures !(raw.year.Some? && raw.year.value != 0) ==> r.year == yearOf(raw.inspectionDate)
    ensures r.inspectionDate == raw.inspectionDate && r.counters == raw.counters
  {
    Record(
      if raw.year.Some? && raw.year.value != 0 then raw.year.value else yearOf(raw.inspectionDate),
      if raw.month.Some? then Fallback(raw.month.value) else SelfSet,
      if raw.inspectorName.Some? then Fallback(raw.inspectorName.value) else SelfSet,
      if raw.inspectionStatus.Some? then Fallback(raw.inspectionStatus.value) else SelfSet,
      raw.inspectionDate,
      raw.counters)
  }

  /** `sorted.map(...)`: cleaning every fetched record, keeping the order. */
  function CleanAll(raw: seq<RawRecord>, yearOf: string -> int): (rs: seq<Record>)
    ensures |rs| == |raw|
    ensures forall i :: 0 <= i < |raw| ==> rs[i] == Clean(raw[i], yearOf)
  {
    seq(|raw|, i requires 0 <= i < |raw| => Clean(raw[i], yearOf))
  }

  /** `d[f] || 0` */
  function Counter(r: Record, f: string): nat {
    if f in r.counters then r.counters[f] else 0
  }

  /** A per-record quantity summed by a chart: the sum of some counters. */
  type Metric = seq<string>

  function MetricValue(r: Record, m: Metric): nat {
    if |m| == 0 then 0 else Counter(r, m[0]) + MetricValue(r, m[1..])
  }

  /** `rows.reduce((t, d) => t + <metric of d>, 0)` */
  function Total(rows: seq<Record>, m: Metric): nat {
    if |rows| == 0 then 0
    else Total(rows[..|rows| - 1], m) + MetricValue(rows[|rows| - 1], m)
  }

  lemma {:induction false} TotalAppend(a: seq<Record>, b: seq<Record>, m: Metric)
    ensures Total(a + b, m) == Total(a, m) + Total(b, m)
  {
    if |b| > 0 {
      var b' := b[..|b| - 1];
      assert (a + b)[..|a + b| - 1] == a + b';
      TotalAppend(a, b', m);
    } else {
      assert a + b == a;
    }
  }

  lemma {:induction false} MetricValueAppend(r: Record, m1: Metric, m2: Metric)
    ensures MetricValue(r, m1 + m2) == MetricValue(r, m1) + MetricValue(r, m2)
  {
    if |m1| == 0 {
      assert m1 + m2 == m2;
    } else {
      assert (m1 + m2)[1..] == m1[1..] + m2;
      MetricValueAppend(r, m1[1..], m2);
    }
  }

  /** The dimensions records are grouped, filtered and listed by. */
  datatype Dimension = ByMonth | ByInspector | ByStatus

  function Label(r: Record, d: Dimension): string {
    match d
    case ByMonth => r.month
    case ByInspector => r.inspectorName
    case ByStatus => r.inspectionStatus
  }

  /** The grouping key `d.month || "Self Set"` (or inspector, or status). */
  function KeyOf(r: Record, d: Dimension): string {
    Fallback(Label(r, d))
  }

  /** On a cleaned record the grouping key is the label itself. */
  lemma CleanedKey(raw: RawRecord, yearOf: string -> int, d: Dimension)
    ensures KeyOf(Clean(raw, yearOf), d) == Label(Clean(raw, yearOf), d)
  {
  }

  function KeysOf(rows: seq<Record>, d: Dimension): (ks: seq<string>)
    ensures |ks| == |rows|
    ensures forall i :: 0 <= i < |rows| ==> ks[i] == KeyOf(rows[i], d)
  {
    seq(|rows|, i requires 0 <= i < |rows| => KeyOf(rows[i], d))
  }

  lemma KeysOfSnoc(rows: seq<Record>, n: nat, d: Dimension)
    requires n < |rows|
    ensures KeysOf(rows[..n + 1], d) == KeysOf(rows[..n], d) + [KeyOf(rows[n], d)]
  {
  }
}
