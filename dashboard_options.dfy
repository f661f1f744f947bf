/** The choices offered by the four filter drop-downs: "All" followed by the
    distinct values found in the unfiltered data, in first-seen order. */
module FilterOptions {
  import opened Seqs
  import opened Records
  import opened Filters

  /** `["All", ...new Set(data.map(d => d.month || "Self Set"))]`, and the
      same for inspectors and statuses. */
  function LabelOptions(data: seq<Record>, d: Dimension): (opts: seq<string>)
    ensures |opts| >= 1 && opts[0] == All
  {
    [All] + Distinct(KeysOf(data, d))
  }

  /** The years of the records, in record order. */
  function Years(data: seq<Record>): (ys: seq<int>)
    ensures |ys| == |data|
    ensures forall i :: 0 <= i < |data| ==> ys[i] == data[i].year
  {
    seq(|data|, i requires 0 <= i < |data| => data[i].year)
  }

  function AsChoices(ys: seq<int>): (cs: seq<YearChoice>)
    ensures |cs| == |ys|
    ensures forall i :: 0 <= i < |ys| ==> cs[i] == OneYear(ys[i])
  {
    seq(|ys|, i requires 0 <= i < |ys| => OneYear(ys[i]))
  }

  /** `["All", ...new Set(data.map(d => d.year))]`. */
  function YearOptions(data: seq<Record>): (opts: seq<YearChoice>)
    ensures |opts| >= 1 && opts[0] == AllYears
  {
    [AllYears] + AsChoices(Distinct(Years(data)))
  }

  /** A label option list starts with "All"; after it every value appears
      once, the values are exactly the keys of the data, and they are listed
      in the order the data first shows them. */
  lemma LabelOptionsFacts(data: seq<Record>, d: Dimension)
    ensures LabelOptions(data, d)[0] == All
    ensures NoDuplicates(LabelOptions(data, d)[1..])
    ensures forall k :: k in LabelOptions(data, d)[1..] <==> k in KeysOf(data, d)
    ensures forall r :: r in data ==> KeyOf(r, d) in LabelOptions(data, d)
  {
    var tail := LabelOptions(data, d)[1..];
    assert tail == Distinct(KeysOf(data, d));
    DistinctNoDuplicates(KeysOf(data, d));
    forall k ensures k in tail <==> k in KeysOf(data, d) {
      DistinctMembership(KeysOf(data, d), k);
    }
    forall r | r in data ensures KeyOf(r, d) in LabelOptions(data, d) {
      var i :| 0 <= i < |data| && data[i] == r;
      assert KeysOf(data, d)[i] == KeyOf(r, d);
    }
  }

  /** The option after position `i` in a label list first occurs in the data
      earlier than the option after position `j`. */
  lemma LabelOptionsOrder(data: seq<Record>, d: Dimension, i: nat, j: nat)
    requires 1 <= i < j < |LabelOptions(data, d)|
    ensures LabelOptions(data, d)[i] in KeysOf(data, d) && LabelOptions(data, d)[j] in KeysOf(data, d)
    ensures FirstIndex(KeysOf(data, d), LabelOptions(data, d)[i]) < FirstIndex(KeysOf(data, d), LabelOptions(data, d)[j])
  {
    HeadedFirstSeenOrder(All, KeysOf(data, d), i, j);
  }

  /** On cleaned data the options are the label values themselves. */
  lemma CleanedOptions(raw: seq<RawRecord>, yearOf: string -> int, d: Dimension, i: nat)
    requires i < |raw|
    ensures Label(CleanAll(raw, yearOf)[i], d) in LabelOptions(CleanAll(raw, yearOf), d)[1..]
  {
    var data := CleanAll(raw, yearOf);
    LabelOptionsFacts(data, d);
    assert KeysOf(data, d)[i] == Label(data[i], d);
  }

  /** The year option list starts with "All"; after it every year appears
      once, and the years offered are exactly the years of the data. */
  lemma YearOptionsFacts(data: seq<Record>)
    ensures YearOptions(data)[0] == AllYears
    ensures NoDuplicates(YearOptions(data)[1..])
    ensures forall c :: c in YearOptions(data)[1..] ==> c.OneYear?
    ensures forall y :: OneYear(y) in YearOptions(data)[1..] <==> y in Years(data)
    ensures forall r :: r in data ==> OneYear(r.year) in YearOptions(data)
  {
    var ds := Distinct(Years(data));
    var tail := YearOptions(data)[1..];
    assert tail == AsChoices(ds);
    DistinctNoDuplicates(Years(data));
    forall a, b | 0 <= a < b < |tail| ensures tail[a] != tail[b] {
      assert ds[a] != ds[b];
    }
    forall y ensures OneYear(y) in tail <==> y in Years(data) {
      DistinctMembership(Years(data), y);
      if OneYear(y) in tail {
        var p :| 0 <= p < |tail| && tail[p] == OneYear(y);
        assert ds[p] == y;
      }
      if y in ds {
        var p :| 0 <= p < |ds| && ds[p] == y;
        assert tail[p] == OneYear(y);
      }
    }
    forall r | r in data ensures OneYear(r.year) in YearOptions(data) {
      var i :| 0 <= i < |data| && data[i] == r;
      assert Years(data)[i] == r.year;
      assert OneYear(r.year) in tail;
    }
  }
}
