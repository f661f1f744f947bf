/** The dashboard's four filter drop-downs and the effect that narrows the
    records to those matching every chosen value. */
module Filters {
  import opened Seqs
  import opened Records

  /** The year drop-down: "All" or one year. */
  datatype YearChoice = AllYears | OneYear(year: int)

  /** The chosen value of each drop-down; "All" switches that filter off. */
  datatype FilterSpec = FilterSpec(year: YearChoice, month: string, inspector: string, status: string)

  const All: string := "All"

  const NoFilters: FilterSpec := FilterSpec(AllYears, All, All, All)

  /** A record passes every filter that is not set to "All". */
  predicate Matches(r: Record, f: FilterSpec) {
    && (f.year.OneYear? ==> r.year == f.year.year)
    && (f.month != All ==> r.month == f.month)
    && (f.inspector != All ==> r.inspectorName == f.inspector)
    && (f.status != All ==> r.inspectionStatus == f.status)
  }

  /** The records that pass all four filters, in their original order. */
  function Filtered(data: seq<Record>, f: FilterSpec): seq<Record> {
    if |data| == 0 then []
    else (if Matches(data[0], f) then [data[0]] else []) + Filtered(data[1..], f)
  }

  /** One `result.filter(...)` step of the effect. */
  datatype Criterion = YearIs(y: int) | MonthIs(m: string) | InspectorIs(n: string) | StatusIs(s: string)

  predicate Meets(r: Record, c: Criterion) {
    match c
    case YearIs(y) => r.year == y
    case MonthIs(m) => r.month == m
    case InspectorIs(n) => r.inspectorName == n
    case StatusIs(s) => r.inspectionStatus == s
  }

  function Keep(rows: seq<Record>, c: Criterion): seq<Record> {
    if |rows| == 0 then []
    else (if Meets(rows[0], c) then [rows[0]] else []) + Keep(rows[1..], c)
  }

  /** The filter set after also switching on criterion `c`. */
  function With(f: FilterSpec, c: Criterion): FilterSpec {
    match c
    case YearIs(y) => f.(year := OneYear(y))
    case MonthIs(m) => f.(month := m)
    case InspectorIs(n) => f.(inspector := n)
    case StatusIs(s) => f.(status := s)
  }

  /** `c` concerns a dimension that `f` leaves at "All", and its value is not "All". */
  predicate Unfiltered(f: FilterSpec, c: Criterion) {
    match c
    case YearIs(_) => f.year == AllYears
    case MonthIs(m) => f.month == All && m != All
    case InspectorIs(n) => f.inspector == All && n != All
    case StatusIs(s) => f.status == All && s != All
  }

  /** Narrowing the filtered records by one more criterion is the same as
      filtering the data once with that criterion switched on. */
  lemma {:induction false} KeepFiltered(data: seq<Record>, f: FilterSpec, c: Criterion)
    requires Unfiltered(f, c)
    ensures Keep(Filtered(data, f), c) == Filtered(data, With(f, c))
  {
    if |data| > 0 {
      KeepFiltered(data[1..], f, c);
      var head := if Matches(data[0], f) then [data[0]] else [];
      KeepAppend(head, Filtered(data[1..], f), c);
      MatchesWith(data[0], f, c);
      assert Keep(head, c) == if Matches(data[0], With(f, c)) then [data[0]] else [];
    }
  }

  /** Switching on an unset criterion adds exactly that test. */
  lemma MatchesWith(r: Record, f: FilterSpec, c: Criterion)
    requires Unfiltered(f, c)
    ensures Matches(r, With(f, c)) == (Matches(r, f) && Meets(r, c))
  {
  }

  lemma {:induction false} KeepAppend(a: seq<Record>, b: seq<Record>, c: Criterion)
    ensures Keep(a + b, c) == Keep(a, c) + Keep(b, c)
  {
    if |a| > 0 {
      assert (a + b)[1..] == a[1..] + b;
      KeepAppend(a[1..], b, c);
    } else {
      assert a + b == b;
    }
  }

  lemma {:induction false} NoFiltersKeepsAll(data: seq<Record>)
    ensures Filtered(data, NoFilters) == data
  {
    if |data| > 0 {
      NoFiltersKeepsAll(data[1..]);
    }
  }

  /** The filter effect: start from all records and apply each filter whose
      drop-down is not "All" in turn (year, month, inspector, status). */
  method FilterRecords(data: seq<Record>, f: FilterSpec) returns (result: seq<Record>)
    ensures result == Filtered(data, f)
  {
    result := data;
    NoFiltersKeepsAll(data);
    var g := NoFilters;
    if f.year.OneYear? {
      KeepFiltered(data, g, YearIs(f.year.year));
      result := Keep(result, YearIs(f.year.year));
      g := With(g, YearIs(f.year.year));
    }
    if f.month != All {
      KeepFiltered(data, g, MonthIs(f.month));
      result := Keep(result, MonthIs(f.month));
      g := With(g, MonthIs(f.month));
    }
    if f.inspector != All {
      KeepFiltered(data, g, InspectorIs(f.inspector));
      result := Keep(result, InspectorIs(f.inspector));
      g := With(g, InspectorIs(f.inspector));
    }
    if f.status != All {
      KeepFiltered(data, g, StatusIs(f.status));
      result := Keep(result, StatusIs(f.status));
      g := With(g, StatusIs(f.status));
    }
    assert g == f;
  }

  /** A record is kept exactly when it is in the data and passes every filter. */
  lemma {:induction false} FilteredMembership(data: seq<Record>, f: FilterSpec, r: Record)
    ensures r in Filtered(data, f) <==> r in data && Matches(r, f)
  {
    if |data| > 0 {
      FilteredMembership(data[1..], f, r);
      assert data == [data[0]] + data[1..];
    }
  }

  /** Filtering keeps the records' relative order. */
  lemma {:induction false} FilteredIsSubsequence(data: seq<Record>, f: FilterSpec)
    ensures IsSubsequence(Filtered(data, f), data)
  {
    if |data| > 0 {
      FilteredIsSubsequence(data[1..], f);
      if Matches(data[0], f) {
        assert Filtered(data, f)[1..] == Filtered(data[1..], f);
      } else {
        assert Filtered(data, f) == Filtered(data[1..], f);
        SubsequenceDropHead(Filtered(data[1..], f), data);
      }
    }
  }

  /** Every record that is kept passes every filter, so filtering again keeps all. */
  lemma {:induction false} FilterIdempotent(data: seq<Record>, f: FilterSpec)
    ensures Filtered(Filtered(data, f), f) == Filtered(data, f)
  {
    if |data| > 0 {
      FilterIdempotent(data[1..], f);
      if Matches(data[0], f) {
        assert Filtered(data, f)[1..] == Filtered(data[1..], f);
      } else {
        assert Filtered(data, f) == Filtered(data[1..], f);
      }
    }
  }

  /** Only a record whose year equals the chosen year passes a year-only filter. */
  lemma YearOnly(data: seq<Record>, y: int, r: Record)
    ensures r in Filtered(data, FilterSpec(OneYear(y), All, All, All)) <==> r in data && r.year == y
  {
    FilteredMembership(data, FilterSpec(OneYear(y), All, All, All), r);
  }
}
