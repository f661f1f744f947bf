# Textile inspection dashboard: client-side record processing

This project models the record processing done in the browser by three React
components of a textile-inspection dashboard, and proves properties of that model.

- **The dashboard** (`src/components/Dashboard.jsx`):
  - It cleans the fetched inspection records: a missing month, inspector or status becomes "Self Set", and a missing year is taken from the inspection date.
  - It narrows them with four drop-down filters.
  - It reduces them to KPI cards, a six-point defect radar, a major/minor defect distribution and a status pie.
  - It builds seven group-by summaries keyed by month or inspector, and the "All"-headed option lists of the filter drop-downs.
- **The inspection table** (`src/components/InspectionTable.jsx`):
  - It shows the columns of the first row without the server's bookkeeping keys.
  - It searches every column case-insensitively and pages the result ten rows at a time.
  - It moves the current page back after a delete.
  - It turns edited number fields into numbers and strips `_id` and `__v` before saving.
- **The add-inspection form** (`src/components/InspectionForm.jsx`):
  - It accepts or drops each keystroke by field kind: numeric, letters-and-spaces, or a 0/1 outcome field.
  - It keeps at most one of pass, fail, abort and pending chosen, and labels the choice.
  - Before posting, it reports the first empty field and refuses more offered cartons than offered packs.

Models of JavaScript behaviour:
- **Objects.** Table rows, the edit form and the add form are plain objects, modelled as ordered entry lists (`JsObject`):
  - `Keys` is insertion order, which is what `Object.keys` and `for...in` report when no key is integer-like (see "## Left out").
  - `Put` is the spread update `{...o, [k]: v}`: an existing key keeps its place, and a new key goes last.
  - `Delete` is `delete o[k]`.
  - A value is null, a string or a number (`Value`). Booleans, nested objects and arrays are not modelled. The search would see such a cell through `toString()`, as "true" or "[object Object]".
- **Dictionaries.** The dashboard's grouping dictionaries are a `map` plus the list of keys in insertion order.
- **Component state.** Each component's state is a class:
  - `DashboardState.Dashboard`, `Table.InspectionTable` and `Form.InspectionForm`;
  - handlers are methods that reassign the fields React would set.
- **Loops and step-by-step code.** Each is a method proved equal to a specification function:
  - the filter effect, which reassigns `result` by one `.filter` step per chosen drop-down (`Filters.FilterRecords`);
  - the grouping `forEach` with its `Object.values` (`Grouping.Summarize`);
  - the outcome `forEach` (`Form.ZeroOtherFields`) and the `for...in` blank check (`Form.FindBlank`).

Parameters and simplifications:
- **Injected runtime behaviour.** What the runtime supplies arrives as a parameter:
  - the year of an inspection date (`yearOf`);
  - `new Date` on a saved date (`toDate`);
  - the number-to-text conversion the search applies to numeric cells (`render`);
  - `Number(value)` of an edited table field (`number`);
  - the current year (`currentYear`);
  - the outcome of each request (`ok`, `postOk`, an `Option` response).
- **Numbers.** Counters are natural numbers, and a counter that is absent counts as 0 (`d[f] || 0`).
- **Pass rates.** These are exact rationals, with the source's zero-total guard.
- **Parsing numbers.** The form's `Number(text)` is modelled on the text the numeric pattern accepts, as an exact decimal where the runtime rounds to the nearest double:
  - `""` is 0;
  - `"."` is `NaN`, and any comparison with it is false;
  - otherwise digits, an optional point, and digits.

Behaviour of the source that the model keeps as written:
- **Next button.** It is disabled only when `currentPage === totalPages`. With no rows there are no pages, so it stays enabled and moves to page 2 (`Table.InspectionTable.NextPage`).
- **Search and page.** Typing in the search box does not reset the current page.
- **Page after a delete.** The new page count is computed over all rows, not over the search result.
- **Unchoosing an outcome.** Typing "0" over the chosen outcome unchooses it but leaves its status label (`Form.UnchooseKeepsLabel`). So the invariant states "a chosen outcome is named by the label", not the converse.

## Model

| member | source | states |
|---|---|---|
| Records.Clean | src/components/Dashboard.jsx:38-44 | a falsy month, inspector or status becomes "Self Set" and a truthy one is kept; a non-zero year is kept and a missing or zero year is `yearOf` of the inspection date; the date and every counter are unchanged |
| Records.CleanAll | src/components/Dashboard.jsx:38-44 | one cleaned record per fetched record, in the same order |
| Records.CleanedKey | src/components/Dashboard.jsx:90 | on a cleaned record the grouping key `d.month \|\| "Self Set"` (or inspector, status) is the label itself |
| Records.Total | src/components/Dashboard.jsx:77-80 | `reduce((s, d) => s + (d.x \|\| 0), 0)` over the records (additivity in `Records.TotalAppend`) |
| Records.KeyOf | src/components/Dashboard.jsx:90 | the grouping key `d.month \|\| "Self Set"` (or inspector, or status); on cleaned data it is the label (`Records.CleanedKey`) |
| Records.TotalAppend | src/components/Dashboard.jsx:77-80 | a reduction over two batches of records is the sum of the two reductions |
| Records.MetricValueAppend | src/components/Dashboard.jsx:174 | the value of a sum of counters splits over the counters |
| Filters.Filtered | src/components/Dashboard.jsx:55-71 | the view the effect is meant to produce: the records that pass every chosen filter, in data order (membership, order and idempotence are the `Filtered...` lemmas) |
| Filters.Keep | src/components/Dashboard.jsx:58-68 | one `result.filter(d => ...)` step with one criterion, keeping order (`Filters.KeepFiltered`, `Filters.KeepAppend`) |
| Filters.FilterRecords | src/components/Dashboard.jsx:55-71 | the step-by-step filter effect returns exactly `Filtered(data, filters)` |
| Filters.KeepFiltered | src/components/Dashboard.jsx:58-68 | one more `result.filter` step on a filter left at "All" equals filtering the data once with that filter switched on |
| Filters.KeepAppend | src/components/Dashboard.jsx:59 | `filter` of a concatenation is the concatenation of the filters |
| Filters.NoFiltersKeepsAll | src/components/Dashboard.jsx:56 | with every drop-down at "All" the data comes back unchanged |
| Filters.FilteredMembership | src/components/Dashboard.jsx:55-71 | a record is kept iff it is in the data and matches every filter that is not "All" |
| Filters.FilteredIsSubsequence | src/components/Dashboard.jsx:55-71 | the filtered records keep their relative order |
| Filters.FilterIdempotent | src/components/Dashboard.jsx:55-71 | filtering the filtered records again changes nothing |
| Filters.YearOnly | src/components/Dashboard.jsx:58-59 | with only a year chosen, exactly the records of that year are kept |
| DashboardState.WithLabel | src/components/Dashboard.jsx:227 | choosing a value in one label drop-down changes that filter only |
| DashboardState.Dashboard.constructor | src/components/Dashboard.jsx:13-21 | no records, every filter "All", loading, and the filtered records agree with the filters |
| DashboardState.Dashboard.ApplyFilters | src/components/Dashboard.jsx:55-71 | the filter effect sets the filtered records to `Filtered(data, filters)` and changes nothing else |
| DashboardState.Dashboard.StartFetch | src/components/Dashboard.jsx:33-34 | the loading flag goes up and nothing else changes |
| DashboardState.Dashboard.FinishFetch | src/components/Dashboard.jsx:35-49 | on success the data becomes the cleaned response, on failure it stays; loading ends; the filtered records agree with the filters |
| DashboardState.Dashboard.SelectYear | src/components/Dashboard.jsx:227 | the year filter takes the choice, the others stay, and the filtered records follow |
| DashboardState.Dashboard.SelectLabel | src/components/Dashboard.jsx:227 | the chosen label filter takes the value, the others stay, and the filtered records follow |
| DashboardState.SelectAllLabel | src/components/Dashboard.jsx:55-71 | choosing "All" in a label drop-down keeps exactly the records matching the other filters |
| DashboardState.SelectNarrows | src/components/Dashboard.jsx:55-71 | narrowing a filter that was "All" keeps exactly the previously shown records with that label |
| Totals.Percent | src/components/Dashboard.jsx:82 | 0 when the whole is 0, and otherwise the part is that percentage of the whole (`p * whole == part * 100`); always between 0 and 100 |
| Totals.ComputeKpi | src/components/Dashboard.jsx:75-84 | `total` is the record count, each `totalX` the sum of counter X with absent as 0, and the pass rate is `Percent` of passes over the four-outcome sum, 0 when that sum is 0 |
| Totals.KpiAppend | src/components/Dashboard.jsx:75-81 | every KPI count of two batches is the sum of the counts of each batch |
| Totals.DefectRadar | src/components/Dashboard.jsx:101-110 | exactly six points, Major to Actual OQL in that order, each the total of its counter |
| Totals.Bars | src/components/Dashboard.jsx:117-119 | `fields.map(k => bar(k, sum(k))).filter(x => x.total > 0)` for one category (`Totals.BarsFacts`, `Totals.BarsComplete`, `Totals.BarsSum`) |
| Totals.DefectsDistribution | src/components/Dashboard.jsx:114-121 | the major bars followed by the minor bars (`Totals.DistributionFacts`) |
| Totals.CategorySum | src/components/Dashboard.jsx:269-270 | `defectsDistribution.reduce((a, c) => a + (c.Major \|\| 0), 0)`, and the same for Minor (`Totals.DistributionKpis`) |
| Totals.BarsFacts | src/components/Dashboard.jsx:118-119 | each bar has a non-zero total equal to its field's sum and the category asked for, and bar names follow the field list's order |
| Totals.BarsComplete | src/components/Dashboard.jsx:118-119 | every field with a non-zero sum gets its bar |
| Totals.DistributionFacts | src/components/Dashboard.jsx:114-121 | no zero bar, every Major bar before every Minor bar, Major bars from major fields and Minor from minor, and a bar for each non-zero field |
| Totals.BarsSum | src/components/Dashboard.jsx:117-119 | dropping zero bars loses nothing: a category's bars add up to the total over all its fields |
| Totals.DistributionKpis | src/components/Dashboard.jsx:269-270 | the "Major Defects" figure is the total of the 17 major counters and "Minor Defects" that of the 5 minor ones |
| Totals.StatusPie | src/components/Dashboard.jsx:124-129 | four slices named Pass, Fail, Abort, Pending in that order, each valued at the matching KPI total, so they add up to the four-outcome total |
| Totals.StatusPieOfRows | src/components/Dashboard.jsx:124-129 | on the dashboard's KPI, each slice is the total of the record counter it is named after |
| Grouping.GroupTotal | src/components/Dashboard.jsx:89-95 | a group's running `+=` sum of a metric over the records with its key (0 for an absent key, `Grouping.GroupTotalAbsent`) |
| Grouping.Summary | src/components/Dashboard.jsx:87-98 | the intended summary: one group per distinct key in first-seen order with its sums (`Grouping.SummaryKeys`, `Grouping.SummaryReconciles`) |
| Grouping.Summarize | src/components/Dashboard.jsx:87-98 | the dictionary loop with `Object.values` returns `Summary(rows, chart)`: one group per distinct key in first-seen order with its per-group sums |
| Grouping.LoopStep | src/components/Dashboard.jsx:89-96 | one `forEach` step keeps the key list equal to the distinct keys so far, the dictionary's keys equal to it, and each group's sums equal to the sums over its records |
| Grouping.SummaryKeys | src/components/Dashboard.jsx:87-98 | one group per key, keys pairwise distinct, exactly the keys the records carry, one sum per metric |
| Grouping.SummaryFirstSeen | src/components/Dashboard.jsx:97 | an earlier group's key occurs in the records before a later group's key first does |
| Grouping.GroupTotalAbsent | src/components/Dashboard.jsx:91 | a key no record carries has an empty group |
| Grouping.GroupsReconcile | src/components/Dashboard.jsx:89-95 | the group totals of a metric over all keys add up to the overall total |
| Grouping.SummaryReconciles | src/components/Dashboard.jsx:87-98 | every column of every summary adds up to the overall total of its metric |
| Grouping.MonthlyStatsMatchKpi | src/components/Dashboard.jsx:87-98 | the monthly pass, fail, abort and pending columns add up to the KPI totals |
| Grouping.InspectorStatsMatchKpi | src/components/Dashboard.jsx:132-141 | the per-inspector pass and fail columns add up to the KPI totals |
| Grouping.DefectSummariesMatchRadar | src/components/Dashboard.jsx:144-193 | the critical trend, the monthly Major/Minor ratio and the per-inspector defects add up to the radar's counts |
| Grouping.StatusTrendMatchesKpi | src/components/Dashboard.jsx:196-205 | the abort and pending trend columns add up to the KPI totals |
| Grouping.EfficiencyTotal | src/components/Dashboard.jsx:174 | a group's `total` is its pass + fail + abort + pending, so pass never exceeds it |
| Grouping.InspectorEfficiency | src/components/Dashboard.jsx:167-180 | one row per inspector in first-seen order with the group sums, `total` the four-outcome sum, and pass rate `Percent(pass, total)`, 0 when `total` is 0 |
| FilterOptions.LabelOptions | src/components/Dashboard.jsx:207-209 | "All" followed by the distinct keys of the data; it always starts with "All" |
| FilterOptions.YearOptions | src/components/Dashboard.jsx:210 | "All" followed by the distinct years of the data; it always starts with "All" |
| FilterOptions.LabelOptionsFacts | src/components/Dashboard.jsx:207-209 | "All" first, then no duplicates, exactly the keys of the data, and every record's key offered |
| FilterOptions.LabelOptionsOrder | src/components/Dashboard.jsx:207-209 | the options after "All" are in the order the data first shows them |
| FilterOptions.CleanedOptions | src/components/Dashboard.jsx:207-209 | on cleaned data every record's label is among the options after "All" |
| FilterOptions.YearOptionsFacts | src/components/Dashboard.jsx:210 | "All" first, then distinct years, exactly the years of the data |
| Seqs.Distinct | src/components/Dashboard.jsx:207 | `[...new Set(xs)]`: each value appended when first met (`Seqs.Distinct...` lemmas) |
| Seqs.DistinctMembership | src/components/Dashboard.jsx:207 | `new Set` keeps exactly the values of the list |
| Seqs.DistinctNoDuplicates | src/components/Dashboard.jsx:207 | `new Set` lists each value once |
| Seqs.DistinctFirstSeenOrder | src/components/Dashboard.jsx:207 | `new Set` lists values in first-seen order |
| JsObject.Get | src/components/InspectionTable.jsx:134 | a key has a value iff it is a key of the object |
| JsObject.Put | src/components/InspectionTable.jsx:98-101 | the spread update sets the key, keeps every other key's value, keeps the key order and appends a new key |
| JsObject.Delete | src/components/InspectionTable.jsx:107-108 | the key is gone, every other key keeps its value, and the remaining keys keep their order |
| JsObject.PutWellFormed | src/components/InspectionTable.jsx:98-101 | the spread update never duplicates a key |
| JsObject.DeleteWellFormed | src/components/InspectionTable.jsx:107-108 | deleting never duplicates a key |
| Table.WithoutBookkeeping | src/components/InspectionTable.jsx:128-130 | the kept keys are exactly the non-bookkeeping ones, in their order |
| Table.Columns | src/components/InspectionTable.jsx:128-130 | the first row's keys without bookkeeping, none with no rows (`Table.ColumnsFacts`) |
| Table.ColumnsFacts | src/components/InspectionTable.jsx:128-130 | the columns are the first row's keys minus `_id`, `__v`, `createdAt`, `updatedAt`, in order, and none with no rows |
| Table.CellMatches | src/components/InspectionTable.jsx:134 | `row[col]?.toString().toLowerCase().includes(term.toLowerCase())` on one cell; a missing or null cell never matches (`Table.EmptyTermCell`) |
| Table.Search | src/components/InspectionTable.jsx:132-136 | the rows for which some column matches, in order (`Table.SearchMembership`, `Table.SearchIsSubsequence`) |
| Table.AnyColumn | src/components/InspectionTable.jsx:133-135 | `columns.some(...)` holds iff some column's cell matches |
| Table.SearchMembership | src/components/InspectionTable.jsx:132-136 | a row is listed iff it is a row and some column's text contains the term, ignoring case |
| Table.SearchIsSubsequence | src/components/InspectionTable.jsx:132-136 | the search keeps the rows' order |
| Table.EmptyTermCell | src/components/InspectionTable.jsx:134 | the empty term matches exactly the present, non-null cells |
| Table.EmptyTerm | src/components/InspectionTable.jsx:132-136 | the empty term keeps exactly the rows with a present, non-null column |
| Table.SearchIgnoresCase | src/components/InspectionTable.jsx:134 | searching for a term or its lower-case form lists the same rows |
| Text.Lower | src/components/InspectionTable.jsx:134 | `toLowerCase` keeps the length and lowers each letter |
| Text.LowerIdempotent | src/components/InspectionTable.jsx:134 | lowering twice is lowering once |
| Text.Includes | src/components/InspectionTable.jsx:134 | `includes` holds iff the term occurs at some position |
| Table.Clamp | src/components/InspectionTable.jsx:140 | a slice bound is clamped into the list and is kept when already inside |
| Table.JsSlice | src/components/InspectionTable.jsx:140 | `slice(s, e)` with both bounds clamped into the list (`Table.Clamp`) |
| Table.PageSlice | src/components/InspectionTable.jsx:138-140 | the rows of page p, `slice((p - 1) * 10, p * 10)` (`Table.PageSliceFacts`) |
| Table.PageSliceFacts | src/components/InspectionTable.jsx:138-140 | page p holds at most ten rows, exactly rows `(p-1)*10` to `min(p*10, n)` |
| Table.PageCount | src/components/InspectionTable.jsx:141 | the page count is the ceiling of n/10, and 0 exactly when there are no rows |
| Table.PageNonEmpty | src/components/InspectionTable.jsx:138-141 | a page shows rows iff its number is at most the page count |
| Table.PagesPrefix | src/components/InspectionTable.jsx:138-140 | pages 1 to k together are the first `min(10k, n)` rows |
| Table.PagesCoverRows | src/components/InspectionTable.jsx:138-141 | the pages, read in order, show every row exactly once |
| Table.RowNumberFacts | src/components/InspectionTable.jsx:167 | the `#` cell of slice position i is between 1 and n and numbers that row in the search result |
| Table.AdjustPage | src/components/InspectionTable.jsx:80-82 | a page past the new count becomes the count, or 1 with no rows; otherwise it stays |
| Table.AdjustPageFacts | src/components/InspectionTable.jsx:82 | the adjusted page is at least 1 and, when rows remain, one that shows rows |
| Table.Remaining | src/components/InspectionTable.jsx:80 | exactly the rows whose `_id` differs from the deleted id, each as often as in the list (so the count the page adjustment uses is determined) |
| Table.EditedValue | src/components/InspectionTable.jsx:100 | a number field with a non-empty value is stored as its number; anything else is stored verbatim |
| Table.StripFacts | src/components/InspectionTable.jsx:106-108 | deleting `_id` and `__v` drops exactly those keys and keeps every other value |
| Table.Payload | src/components/InspectionTable.jsx:104-115 | the form without `_id` and `__v`, a truthy date converted (`Table.PayloadFacts`) |
| Table.PayloadFacts | src/components/InspectionTable.jsx:104-115 | the payload has no `_id` or `__v`, every other form key and no other, the form's values, and a truthy date converted |
| Table.InspectionTable.Current | src/components/InspectionTable.jsx:140 | the rows shown are at most ten |
| Table.InspectionTable.constructor | src/components/InspectionTable.jsx:30-40 | the initial state: no rows, no error, empty search, page 1, no edit |
| Table.InspectionTable.FetchInspections | src/components/InspectionTable.jsx:56-68 | on success the rows are replaced and the error cleared; on failure the error is set |
| Table.InspectionTable.SetSearch | src/components/InspectionTable.jsx:151 | the term changes and the page is kept |
| Table.InspectionTable.DeleteInspection | src/components/InspectionTable.jsx:75-88 | after a successful delete the page is `AdjustPage` of the rows left; on failure nothing changes |
| Table.InspectionTable.OpenEditModal | src/components/InspectionTable.jsx:90-94 | the edited row is remembered, the form is a copy of it, and the edit form opens |
| Table.InspectionTable.HandleChange | src/components/InspectionTable.jsx:96-102 | the form becomes the spread update with the edited value; nothing else changes |
| Table.InspectionTable.CancelEdit | src/components/InspectionTable.jsx:227 | the edit form closes and the form data stays |
| Table.InspectionTable.SaveEdit | src/components/InspectionTable.jsx:104-123 | the request goes to the edited row's `_id` with `Payload(formData)`; the form closes only on success |
| Table.InspectionTable.PrevPage | src/components/InspectionTable.jsx:186 | one page back, except on page 1 |
| Table.InspectionTable.NextPage | src/components/InspectionTable.jsx:196 | one page on, except when the page equals the page count |
| Table.InspectionTable.GoToPage | src/components/InspectionTable.jsx:187-195 | a numbered button selects its page, which shows rows |
| Form.InitialState | src/components/InspectionForm.jsx:13-64 | the form's keys are the initial keys in their order |
| Form.FieldKinds | src/components/InspectionForm.jsx:76-101 | numeric, text and outcome fields are form fields, no field is of two kinds, and the offered quantities are numeric |
| Form.InitialValues | src/components/InspectionForm.jsx:13-64 | every field of the initial form holds a value its kind accepts: numbers, letters and spaces, or an outcome state |
| Form.InitialInvariant | src/components/InspectionForm.jsx:13-64 | the initial form satisfies the form invariant and has an empty status label |
| Form.NumericText | src/components/InspectionForm.jsx:90 | the text `^[0-9]*\.?[0-9]*$` accepts: digits with at most one point (`Form.MatchNumeric`) |
| Form.LettersAndSpaces | src/components/InspectionForm.jsx:96 | the text `^[A-Za-z\s]*$` accepts: ASCII letters and JavaScript white space |
| Form.Accepts | src/components/InspectionForm.jsx:89-103 | the keystroke rule of each field kind; a refused value leaves the form unchanged (`Form.Rejected`) |
| Form.StatusLabel | src/components/InspectionForm.jsx:109-113 | the label of each outcome, distinct and non-empty (`Form.StatusLabelsDistinct`) |
| Form.MatchNumeric | src/components/InspectionForm.jsx:90 | the left-to-right match of `^[0-9]*\.?[0-9]*$` holds iff the text is digits with at most one point |
| Form.Rejected | src/components/InspectionForm.jsx:89-103 | a value the field's rule refuses leaves the form unchanged |
| Form.StoredAsTyped | src/components/InspectionForm.jsx:119 | an accepted value other than a chosen outcome is stored as typed in that field only |
| Form.ChooseIsNext | src/components/InspectionForm.jsx:102-104 | typing "1" in an outcome field chooses that outcome |
| Form.ZeroOthers | src/components/InspectionForm.jsx:106-108 | the other outcome fields set to 0 (`Form.ZeroOthersGet`, `Form.ZeroOthersKeys`) |
| Form.ChooseStatus | src/components/InspectionForm.jsx:104-116 | typing "1" in an outcome field: it becomes 1, the others 0, the label its name (`Form.ChooseStatusFacts`) |
| Form.NextForm | src/components/InspectionForm.jsx:71-120 | the form after one keystroke: refused, chosen or stored as typed (`Form.Rejected`, `Form.ChooseIsNext`, `Form.StoredAsTyped`, `Form.NextFormInvariant`) |
| Form.ZeroOthersGet | src/components/InspectionForm.jsx:106-108 | the `forEach` sets the other outcome fields to 0 and nothing else |
| Form.ZeroOthersKeys | src/components/InspectionForm.jsx:106-108 | setting existing fields keeps the keys |
| Form.ZeroOtherFields | src/components/InspectionForm.jsx:106-108 | the loop computes `ZeroOthers` |
| Form.ChooseStatusFacts | src/components/InspectionForm.jsx:104-116 | the chosen outcome is 1, the other three 0, the label its name, and every other field unchanged |
| Form.ChooseStatusKeys | src/components/InspectionForm.jsx:105-114 | choosing an outcome keeps the form's keys |
| Form.StatusLabelsDistinct | src/components/InspectionForm.jsx:109-113 | each outcome has its own non-empty label |
| Form.UnchooseKeepsLabel | src/components/InspectionForm.jsx:101-119 | typing "0" over the chosen outcome unchooses it and keeps its label |
| Form.PutKeepsValues | src/components/InspectionForm.jsx:89-103 | storing an accepted value keeps every field's value acceptable |
| Form.PutKeepsChoice | src/components/InspectionForm.jsx:119 | storing a value as typed keeps at most one outcome chosen, named by the label |
| Form.ChooseKeepsValues | src/components/InspectionForm.jsx:104-116 | choosing keeps every field's value acceptable |
| Form.ChooseKeepsChoice | src/components/InspectionForm.jsx:104-116 | after choosing, only that outcome is chosen and the label names it |
| Form.NextFormInvariant | src/components/InspectionForm.jsx:71-120 | every keystroke in a rendered field keeps the form invariant: same keys, acceptable values, at most one chosen outcome, named by the label |
| Form.ChangedForm | src/components/InspectionForm.jsx:71-120 | the handler's checks with their early returns compute `NextForm` |
| Form.Blank | src/components/InspectionForm.jsx:129 | null or the empty string; a missing key is not blank, since `undefined` is neither `""` nor `null` under `===` |
| Form.FirstBlank | src/components/InspectionForm.jsx:128-133 | none iff no key is blank; otherwise a blank key with no blank key before it |
| Form.FindBlank | src/components/InspectionForm.jsx:128-133 | the `for...in` loop with early return finds `FirstBlank` |
| Form.FirstBlankAt | src/components/InspectionForm.jsx:128-133 | a blank key preceded only by filled ones is the one reported |
| Form.NumberOfText | src/components/InspectionForm.jsx:136 | `Number` of accepted text: "" is 0, "." is NaN, and the value is never negative |
| Form.DigitsOfNatText | src/components/InspectionForm.jsx:136 | the digits of a natural number read back as that number |
| Form.WholeValue | src/components/InspectionForm.jsx:136 | digits alone are accepted and read as a whole number, leading zeros included ("007" is 7) |
| Form.DecimalValue | src/components/InspectionForm.jsx:136 | `w.f` is accepted and read as the digits of `w` and `f` shifted right by `\|f\|` places ("2.5" is 25/10, "5." is 5) |
| Form.DigitsValueAppend | src/components/InspectionForm.jsx:136 | appending digits shifts the value left by one place per digit |
| Form.NatTextRoundTrip | src/components/InspectionForm.jsx:136 | a whole number typed in a numeric field is accepted and read back as that number |
| Form.Exceeds | src/components/InspectionForm.jsx:136 | `Number(ctn) > Number(packs)`: false when either is `NaN` |
| Form.SubmitCheck | src/components/InspectionForm.jsx:127-139 | a blank field is reported iff one exists; otherwise too many cartons iff `Number(ctn) > Number(packs)`; otherwise ready |
| Form.SubmitReportsFirst | src/components/InspectionForm.jsx:128-133 | the reported field is the first blank one in key order |
| Form.InitialSubmit | src/components/InspectionForm.jsx:128-133 | the untouched form is refused, naming `serialNo` |
| Form.InspectionForm.constructor | src/components/InspectionForm.jsx:66-68 | the form starts as the initial state with no message, and satisfies the invariant |
| Form.InspectionForm.HandleChange | src/components/InspectionForm.jsx:71-120 | the form becomes `NextForm(form, name, value)` and keeps the invariant |
| Form.InspectionForm.Validate | src/components/InspectionForm.jsx:127-139 | the checks give `SubmitCheck(form)` |
| Form.InspectionForm.HandleSubmit | src/components/InspectionForm.jsx:123-159 | a failed check sets its message and keeps the form; a successful post resets the form; a failed post keeps it |

## Left out

- **HTTP and sockets.** Requests go through `api.get`, `post`, `put` and `delete`, and the socket subscription refetches on updates. Each request's outcome is a parameter; the socket is not modelled.
- **Sort before cleaning.** Sorting fetched records by parsed inspection date is not modelled. The response arrives already sorted, because date parsing belongs to the runtime.
- **Date-derived values.** The year taken from an inspection date, `new Date` in the table's save, and the current year are parameters.
- **Chart grouping order.** JavaScript lists integer-like keys first in `Object.values`. The grouping uses plain first-seen order, so integer-like month or inspector names would be listed in a different order.
- **Integer-like object keys.** `Object.keys` and `for...in` also list integer-like keys first, in ascending order, and `Keys` does not. This affects `Table.Columns` (src/components/InspectionTable.jsx:128) and `Form.FirstBlank` (src/components/InspectionForm.jsx:128). None of the form's `FieldOrder` keys is integer-like, so only column names supplied by the server are affected.
- **Counters from table edits.** The dashboard takes every counter to be a natural number (`Records.Record.counters`). The table's edit path stores `Number(value)` (src/components/InspectionTable.jsx:100), which can be negative or fractional. With pass 2 and fail -1 the source would show a 200% pass rate. The [0, 100] bounds proved for `Totals.Percent` and `Totals.ComputeKpi` hold only for natural-number counters.
- Grouping.Summarize: treats the dictionary `{}` as empty. In the source it inherits `Object.prototype`, so for a key such as "constructor", "toString", "valueOf", "hasOwnProperty" or "__proto__", `!grouped[key]` is false and no group is created. `Object.values` then misses those records, and the chart's columns no longer add up to the KPI totals. The model creates the group, so `SummaryReconciles` and the `...MatchKpi` lemmas do not cover such names.
- Records.Clean: `yearOf` returns an integer. In the source, a record with no year and an unparsable date gets the year `NaN`, the year drop-down then offers "NaN", and choosing it keeps nothing, because `NaN === NaN` is false. The model has no such year.
- **Pass rates.** The model keeps the exact ratio. Floating-point division and `toFixed(1)` rounding are left out.
- **Submit processing.** The `processed` conversion in `handleSubmit` (`Number`/`isNaN` on every value, `new Date` on the date) is not modelled, because it needs `Number` on arbitrary strings. `HandleSubmit` keeps only the outcome of the post.
- **Number parsing.** `Number` is modelled only on text the numeric pattern accepts. That is all the carton check can see, because the form invariant keeps the offered quantities in that form.
- Form.SubmitCheck: compares the offered quantities as exact decimals, where the source compares the nearest doubles. Text that rounds to the same double is equal in the source: "9007199254740993" against "9007199254740992", or "0.30000000000000001" against "0.3". There the model reports too many cartons and the source lets the form post.
- **Lower-casing.** `toLowerCase` covers ASCII letters only. Number-to-text for the search is the parameter `render`.
- **Table toasts.** The table's toasts (success and failure messages after a delete or a save) and their timer are not modelled; only the state changes are.
- **Form messages.** The form's toast strings and their prettified field names are replaced by the `Form.Message` datatype, which carries the raw key.
- **Loading flags.** The table's and form's loading flags only gate rendering, so they are not modelled. The dashboard's flag is modelled.
- **Select options.** The year and month drop-downs of the add form allow any value through `HandleChange`. Their option lists (20 years back from the current year, 12 months) are not modelled.
- **Presentation.** Rendering, charts, CSS and column-label prettifying are not modelled.
- Form.InspectionForm.Validate: requires both offered quantities to hold numeric text. `HandleSubmit` gets that from the form invariant (every value a numeric field holds passed the numeric pattern).
- **Concurrency.** Races between overlapping fetches are not modelled; the source is single-threaded and does not handle them.
