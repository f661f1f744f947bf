/** The dashboard component's state: the cleaned records, the records that
    pass the filters, the chosen filter values and the loading flag. The
    filter effect runs after every change of the records or the filters, so
    the filtered records always equal `Filtered(data, filters)` once a
    handler returns. */
module DashboardState {
  import opened Seqs
  import opened Records
  import opened Filters

  /** The value chosen in the month, inspector or status drop-down. */
  function FilterValue(f: FilterSpec, d: Dimension): string {
    match d
    case ByMonth => f.month
    case ByInspector => f.inspector
    case ByStatus => f.status
  }

  /** The filter set after choosing `v` in the month, inspector or status drop-down. */
  function WithLabel(f: FilterSpec, d: Dimension, v: string): (g: FilterSpec)
    ensures g.year == f.year
    ensures g.month == (if d == ByMonth then v else f.month)
    ensures g.inspector == (if d == ByInspector then v else f.inspector)
    ensures g.status == (if d == ByStatus then v else f.status)
  {
    match d
    case ByMonth => f.(month := v)
    case ByInspector => f.(inspector := v)
    case ByStatus => f.(status := v)
  }

  class Dashboard {
    var data: seq<Record>
    var filteredData: seq<Record>
    var filters: FilterSpec
    var loading: bool

    ghost predicate Valid()
      reads this
    {
      filteredData == Filtered(data, filters)
    }

    /** The initial state: no records, every filter "All", loading. */
    constructor()
      ensures data == [] && filteredData == [] && filters == NoFilters && loading
      ensures Valid()
    {
      data := [];
      filteredData := [];
      filters := NoFilters;
      loading := true;
    }

    /** The filter effect. */
    method ApplyFilters()
      modifies this
      ensures data == old(data) && filters == old(filters) && loading == old(loading)
      ensures filteredData == Filtered(data, filters)
      ensures Valid()
    {
      filteredData := FilterRecords(data, filters);
    }

    /** `fetchData` up to the request: the loading flag goes up. */
    method StartFetch()
      requires Valid()
      modifies this
      ensures data == old(data) && filteredData == old(filteredData) && filters == old(filters)
      ensures loading
      ensures Valid()
    {
      loading := true;
    }

    /** The request settles. `response` is the sorted list of records the
        server sent, or `None` when the request failed; `yearOf` is the year
        the runtime reads from an inspection date. On success the cleaned
        records replace the data (and, for a moment, the filtered data, until
        the effect narrows them again); on failure nothing but the loading
        flag changes. */
    method FinishFetch(response: Option<seq<RawRecord>>, yearOf: string -> int)
      requires Valid()
      modifies this
      ensures response.Some? ==> data == CleanAll(response.value, yearOf)
      ensures response.None? ==> data == old(data)
      ensures filters == old(filters)
      ensures !loading
      ensures filteredData == Filtered(data, filters)
    {
      if response.Some? {
        data := CleanAll(response.value, yearOf);
        filteredData := data;
        ApplyFilters();
      }
      loading := false;
    }

    /** The year drop-down changes, then the filter effect runs. */
    method SelectYear(choice: YearChoice)
      modifies this
      ensures filters == old(filters).(year := choice)
      ensures data == old(data) && loading == old(loading)
      ensures filteredData == Filtered(data, filters)
    {
      filters := filters.(year := choice);
      ApplyFilters();
    }

    /** The month, inspector or status drop-down changes, then the filter effect runs. */
    method SelectLabel(d: Dimension, v: string)
      modifies this
      ensures filters == WithLabel(old(filters), d, v)
      ensures data == old(data) && loading == old(loading)
      ensures filteredData == Filtered(data, filters)
    {
      filters := WithLabel(filters, d, v);
      ApplyFilters();
    }
  }

  /** Choosing "All" in a label drop-down switches that filter off: the
      result is as if the criterion had never been set. */
  lemma SelectAllLabel(data: seq<Record>, f: FilterSpec, d: Dimension, r: Record)
    ensures r in Filtered(data, WithLabel(f, d, All)) <==>
      r in data && (f.year.OneYear? ==> r.year == f.year.year)
        && (d != ByMonth && f.month != All ==> r.month == f.month)
        && (d != ByInspector && f.inspector != All ==> r.inspectorName == f.inspector)
        && (d != ByStatus && f.status != All ==> r.inspectionStatus == f.status)
  {
    FilteredMembership(data, WithLabel(f, d, All), r);
  }

  /** Narrowing a filter that was "All" to a value keeps exactly the
      previously shown records whose label is that value. */
  lemma SelectNarrows(data: seq<Record>, f: FilterSpec, d: Dimension, v: string)
    requires v != All && FilterValue(f, d) == All
    ensures Filtered(data, WithLabel(f, d, v)) == Keep(Filtered(data, f), LabelIs(d, v))
  {
    KeepFiltered(data, f, LabelIs(d, v));
    assert With(f, LabelIs(d, v)) == WithLabel(f, d, v);
  }

  function LabelIs(d: Dimension, v: string): Criterion {
    match d
    case ByMonth => MonthIs(v)
    case ByInspector => InspectorIs(v)
    case ByStatus => StatusIs(v)
  }
}
