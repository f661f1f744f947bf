/** The inspection table: the columns it shows, the free-text search, the
    pages of ten rows, and the state behind the delete, edit and save
    actions. Rows are the records as the server sends them, as plain objects. */
module Table {
  import opened Seqs
  import opened JsObject
  import opened Text

  // ---------------------------------------------------------------- columns

  /** Keys the server adds that the table never shows. */
  const Bookkeeping: seq<string> := ["_id", "__v", "createdAt", "updatedAt"]

  /** The keys of `ks` that are not bookkeeping keys, in their order. */
  function WithoutBookkeeping(ks: seq<string>): (cols: seq<string>)
    ensures forall k :: k in cols <==> k in ks && k !in Bookkeeping
    ensures IsSubsequence(cols, ks)
  {
    if |ks| == 0 then []
    else if ks[0] in Bookkeeping then
      var rest := WithoutBookkeeping(ks[1..]);
      SubsequenceDropHead(rest, ks);
      rest
    else
      var rest := WithoutBookkeeping(ks[1..]);
      assert ([ks[0]] + rest)[1..] == rest;
      [ks[0]] + rest
  }

  /** `Object.keys(inspections[0] || {})` without the bookkeeping keys. */
  function Columns(rows: seq<Obj>): seq<string> {
    if |rows| == 0 then [] else WithoutBookkeeping(Keys(rows[0]))
  }

  /** The columns are the first row's keys minus the bookkeeping keys, in the
      first row's order; there are none when there are no rows. */
  lemma ColumnsFacts(rows: seq<Obj>)
    ensures |rows| == 0 ==> Columns(rows) == []
    ensures |rows| > 0 ==> IsSubsequence(Columns(rows), Keys(rows[0]))
    ensures |rows| > 0 ==> forall k :: k in Columns(rows) <==> k in Keys(rows[0]) && k !in Bookkeeping
    ensures forall k :: k in Bookkeeping ==> k !in Columns(rows)
  {
  }

  // ---------------------------------------------------------------- search

  /** `v?.toString()`: no text for `null`; a number is written by `render`,
      the runtime's number-to-text conversion. */
  function CellText(v: Value, render: real -> string): Option<string> {
    match v
    case Null => None
    case Str(s) => Some(s)
    case Num(x) => Some(render(x))
  }

  /** `row[col]?.toString().toLowerCase().includes(searchTerm.toLowerCase())`,
      where `None` is a missing column. */
  predicate CellMatches(cell: Option<Value>, term: string, render: real -> string) {
    cell.Some? && CellText(cell.value, render).Some?
      && Includes(Lower(CellText(cell.value, render).value), Lower(term))
  }

  /** `columns.some(col => ...)`, scanning the columns from the left. */
  function AnyColumn(row: Obj, cols: seq<string>, term: string, render: real -> string): (b: bool)
    ensures b <==> exists i :: 0 <= i < |cols| && CellMatches(Get(row, cols[i]), term, render)
  {
    if |cols| == 0 then false
    else if CellMatches(Get(row, cols[0]), term, render) then true
    else
      var rest := AnyColumn(row, cols[1..], term, render);
      assert forall i :: 1 <= i < |cols| ==> cols[i] == cols[1..][i - 1];
      rest
  }

  /** `inspections.filter(row => columns.some(...))`. */
  function Search(rows: seq<Obj>, cols: seq<string>, term: string, render: real -> string): seq<Obj> {
    if |rows| == 0 then []
    else (if AnyColumn(rows[0], cols, term, render) then [rows[0]] else []) + Search(rows[1..], cols, term, render)
  }

  /** A row is listed exactly when it is one of the rows and some column's
      text contains the search term, ignoring case. */
  lemma {:induction false} SearchMembership(rows: seq<Obj>, cols: seq<string>, term: string, render: real -> string, row: Obj)
    ensures row in Search(rows, cols, term, render) <==>
      row in rows && exists i :: 0 <= i < |cols| && CellMatches(Get(row, cols[i]), term, render)
  {
    if |rows| > 0 {
      SearchMembership(rows[1..], cols, term, render, row);
      assert rows == [rows[0]] + rows[1..];
    }
  }

  /** The search keeps the rows in their order. */
  lemma {:induction false} SearchIsSubsequence(rows: seq<Obj>, cols: seq<string>, term: string, render: real -> string)
    ensures IsSubsequence(Search(rows, cols, term, render), rows)
  {
    if |rows| > 0 {
      SearchIsSubsequence(rows[1..], cols, term, render);
      if AnyColumn(rows[0], cols, term, render) {
        assert Search(rows, cols, term, render)[1..] == Search(rows[1..], cols, term, render);
      } else {
        assert Search(rows, cols, term, render) == Search(rows[1..], cols, term, render);
        SubsequenceDropHead(Search(rows[1..], cols, term, render), rows);
      }
    }
  }

  /** The empty term matches every cell that has text, so it keeps exactly the
      rows with some column that is present and not `null`. */
  lemma EmptyTermCell(cell: Option<Value>, render: real -> string)
    ensures CellMatches(cell, "", render) <==> cell.Some? && !cell.value.Null?
  {
    if cell.Some? && !cell.value.Null? {
      EmptyIncluded(Lower(CellText(cell.value, render).value));
    }
  }

  lemma EmptyTerm(rows: seq<Obj>, cols: seq<string>, render: real -> string, row: Obj)
    ensures row in Search(rows, cols, "", render) <==>
      row in rows && exists i :: 0 <= i < |cols| && Get(row, cols[i]).Some? && !Get(row, cols[i]).value.Null?
  {
    SearchMembership(rows, cols, "", render, row);
    forall i | 0 <= i < |cols|
      ensures CellMatches(Get(row, cols[i]), "", render) <==> Get(row, cols[i]).Some? && !Get(row, cols[i]).value.Null?
    {
      EmptyTermCell(Get(row, cols[i]), render);
    }
  }

  /** Searching for a term or for its lower-case form gives the same rows. */
  lemma {:induction false} SearchIgnoresCase(rows: seq<Obj>, cols: seq<string>, term: string, render: real -> string)
    ensures Search(rows, cols, term, render) == Search(rows, cols, Lower(term), render)
  {
    LowerIdempotent(term);
    forall row: Obj, col: string
      ensures CellMatches(Get(row, col), term, render) == CellMatches(Get(row, col), Lower(term), render)
    {
    }
    if |rows| > 0 {
      SearchIgnoresCase(rows[1..], cols, term, render);
      assert AnyColumn(rows[0], cols, term, render) == AnyColumn(rows[0], cols, Lower(term), render);
    }
  }

  // ---------------------------------------------------------------- pages

  const RowsPerPage: nat := 10

  /** `indexOfFirst = currentPage * rowsPerPage - rowsPerPage`. */
  function PageStart(p: int): int {
    p * RowsPerPage - RowsPerPage
  }

  /** `xs.slice(s, e)`: negative bounds count from the end, bounds are
      clamped to the list, and an empty range gives `[]`. */
  function Clamp(b: int, n: nat): (r: nat)
    ensures r <= n
    ensures 0 <= b <= n ==> r == b
  {
    if b < 0 then (if n + b < 0 then 0 else n + b) else if b > n then n else b
  }

  function JsSlice<T>(xs: seq<T>, s: int, e: int): seq<T> {
    var lo := Clamp(s, |xs|);
    var hi := Clamp(e, |xs|);
    if lo < hi then xs[lo..hi] else []
  }

  /** `filtered.slice(indexOfFirst, indexOfLast)`. */
  function PageSlice<T>(rows: seq<T>, p: int): seq<T> {
    JsSlice(rows, PageStart(p), p * RowsPerPage)
  }

  function Min(a: int, b: int): int {
    if a <= b then a else b
  }

  /** Page `p` (counting from 1) holds at most ten rows: those from position
      `(p-1)*10` up to `p*10` or the end of the list. */
  lemma PageSliceFacts<T>(rows: seq<T>, p: int)
    requires p >= 1
    ensures PageStart(p) >= 0
    ensures |PageSlice(rows, p)| <= RowsPerPage
    ensures PageSlice(rows, p) == rows[Min(PageStart(p), |rows|)..Min(p * RowsPerPage, |rows|)]
  {
  }

  /** `Math.ceil(filtered.length / rowsPerPage)`. */
  function PageCount(n: nat): (c: nat)
    ensures n <= c * RowsPerPage
    ensures n > 0 ==> (c - 1) * RowsPerPage < n
    ensures c == 0 <==> n == 0
  {
    (n + RowsPerPage - 1) / RowsPerPage
  }

  /** The pages 1 to `PageCount` are the non-empty ones. */
  lemma PageNonEmpty<T>(rows: seq<T>, p: int)
    requires p >= 1
    ensures |PageSlice(rows, p)| > 0 <==> p <= PageCount(|rows|)
  {
    PageSliceFacts(rows, p);
  }

  /** Pages 1 to `k`, one after another. */
  function Pages<T>(rows: seq<T>, k: nat): seq<T> {
    if k == 0 then [] else Pages(rows, k - 1) + PageSlice(rows, k)
  }

  lemma {:induction false} PagesPrefix<T>(rows: seq<T>, k: nat)
    ensures Pages(rows, k) == rows[..Min(k * RowsPerPage, |rows|)]
  {
    if k > 0 {
      PagesPrefix(rows, k - 1);
      PageSliceFacts(rows, k);
      var a := Min((k - 1) * RowsPerPage, |rows|);
      var b := Min(k * RowsPerPage, |rows|);
      assert rows[..a] + rows[a..b] == rows[..b];
    }
  }

  /** Read one after another, the pages show every row once, in order. */
  lemma PagesCoverRows<T>(rows: seq<T>)
    ensures Pages(rows, PageCount(|rows|)) == rows
  {
    PagesPrefix(rows, PageCount(|rows|));
  }

  /** The `#` cell of slice position `i`: `indexOfFirst + i + 1`. */
  function RowNumber(p: int, i: int): int {
    PageStart(p) + i + 1
  }

  /** The row shown at slice position `i` of page `p` is row number
      `RowNumber(p, i)` of the search result, counting from 1. */
  lemma RowNumberFacts<T>(rows: seq<T>, p: int, i: nat)
    requires p >= 1 && i < |PageSlice(rows, p)|
    ensures 1 <= RowNumber(p, i) <= |rows|
    ensures PageSlice(rows, p)[i] == rows[RowNumber(p, i) - 1]
  {
    PageSliceFacts(rows, p);
  }

  /** After a delete: `if (currentPage > newTotalPages) setCurrentPage(newTotalPages || 1)`. */
  function AdjustPage(p: int, remaining: nat): (q: int)
    ensures p > PageCount(remaining) && remaining > 0 ==> q == PageCount(remaining)
    ensures p > PageCount(remaining) && remaining == 0 ==> q == 1
    ensures p <= PageCount(remaining) ==> q == p
  {
    if p > PageCount(remaining) then (if PageCount(remaining) == 0 then 1 else PageCount(remaining)) else p
  }

  /** From any page counted from 1, the adjusted page is a page counted from
      1, and when rows remain it is one that shows rows. */
  lemma AdjustPageFacts(p: int, remaining: nat)
    requires p >= 1
    ensures AdjustPage(p, remaining) >= 1
    ensures remaining > 0 ==> AdjustPage(p, remaining) <= PageCount(remaining)
  {
  }

  /** `inspections.filter(item => item._id !== id)`; `None` is `undefined`. */
  function Remaining(rows: seq<Obj>, id: Option<Value>): (rest: seq<Obj>)
    ensures |rest| <= |rows|
    ensures forall r :: r in rest <==> r in rows && Get(r, "_id") != id
    ensures forall r :: multiset(rest)[r] == if Get(r, "_id") != id then multiset(rows)[r] else 0
  {
    if |rows| == 0 then []
    else
      var tail := Remaining(rows[1..], id);
      var head := if Get(rows[0], "_id") != id then [rows[0]] else [];
      RemainingStep(rows, id, head, tail);
      head + tail
  }

  /** The recursive case of `Remaining`: the first row, kept or dropped, in
      front of the remaining rows of the rest. */
  lemma RemainingStep(rows: seq<Obj>, id: Option<Value>, head: seq<Obj>, tail: seq<Obj>)
    requires |rows| > 0
    requires head == if Get(rows[0], "_id") != id then [rows[0]] else []
    requires forall r :: r in tail <==> r in rows[1..] && Get(r, "_id") != id
    requires forall r :: multiset(tail)[r] == if Get(r, "_id") != id then multiset(rows[1..])[r] else 0
    ensures forall r :: r in head + tail <==> r in rows && Get(r, "_id") != id
    ensures forall r :: multiset(head + tail)[r] == if Get(r, "_id") != id then multiset(rows)[r] else 0
  {
    assert rows == [rows[0]] + rows[1..];
    assert multiset(rows) == multiset([rows[0]]) + multiset(rows[1..]);
    assert multiset(head + tail) == multiset(head) + multiset(tail);
  }

  // ---------------------------------------------------------------- editing

  /** The fields the edit form turns into numbers. */
  const NumberFields: seq<string> := [
    "serialNo", "year", "inspectionId", "offeredQtyCtn", "offeredQtyPacks", "noOfInspection",
    "pass", "fail", "abort", "pending", "sampleSize",
    "major", "minor", "oql", "percentAllowed", "critical", "actualMajor", "actualMinor", "actualOql",
    "pulledTerry", "rawEdge", "weaving", "uncutThread", "stainMajor", "skipStitch", "brokenStitch",
    "runoffStitch", "poorShape", "pleat", "insecureLabel", "missingLabel", "contaminationMajor",
    "slantLabel", "damageFabric", "hole", "looseStitch", "singleUntrimmedThread", "contaminationMinor",
    "flyYarn", "dustMark", "stainMinor"]

  /** The field converted to a date before saving. */
  const DateField: string := "inspectionDate"

  /** What an edit stores: `numberFields.includes(name) && value !== "" ?
      Number(value) : value`, where `number` is `Number(value)`. */
  function EditedValue(name: string, value: string, number: real): (v: Value)
    ensures v.Num? <==> name in NumberFields && value != ""
    ensures v.Num? ==> v == Num(number)
    ensures !v.Num? ==> v == Str(value)
  {
    if name in NumberFields && value != "" then Num(number) else Str(value)
  }

  /** JavaScript truthiness of a field value; `Records.LabelTruthy` is the
      same test on a label that may be missing. */
  predicate Truthy(v: Value) {
    match v
    case Null => false
    case Str(s) => s != ""
    case Num(x) => x != 0.0
  }

  /** The body of the update request: the form without `_id` and `__v`, with
      a truthy inspection date converted by `toDate`, the runtime's `new Date`. */
  function Payload(form: Obj, toDate: Value -> Value): Obj {
    var clean := Delete(Delete(form, "_id"), "__v");
    var date := Get(clean, DateField);
    if date.Some? && Truthy(date.value) then Put(clean, DateField, toDate(date.value)) else clean
  }

  /** Deleting `_id` and then `__v` drops exactly those two keys. */
  lemma StripFacts(form: Obj)
    requires WellFormed(form)
    ensures WellFormed(Delete(Delete(form, "_id"), "__v"))
    ensures "_id" !in Keys(Delete(Delete(form, "_id"), "__v")) && "__v" !in Keys(Delete(Delete(form, "_id"), "__v"))
    ensures forall k :: k in Keys(Delete(Delete(form, "_id"), "__v")) <==> k in Keys(form) && k != "_id" && k != "__v"
    ensures forall k :: k != "_id" && k != "__v" ==> Get(Delete(Delete(form, "_id"), "__v"), k) == Get(form, k)
  {
    var once := Delete(form, "_id");
    DeleteWellFormed(form, "_id");
    DeleteWellFormed(once, "__v");
    forall k | k in Keys(Delete(once, "__v")) ensures k in Keys(once) {
      assert Get(Delete(once, "__v"), k) == Get(once, k);
    }
    forall k | k in Keys(once) ensures k in Keys(form) {
      assert Get(once, k) == Get(form, k);
    }
  }

  /** The payload has no `_id` and no `__v`, keeps every other key of the
      form and no other, and holds the form's values except for the date. */
  lemma PayloadFacts(form: Obj, toDate: Value -> Value)
    requires WellFormed(form)
    ensures WellFormed(Payload(form, toDate))
    ensures "_id" !in Keys(Payload(form, toDate)) && "__v" !in Keys(Payload(form, toDate))
    ensures forall k :: k in Keys(Payload(form, toDate)) <==> k in Keys(form) && k != "_id" && k != "__v"
    ensures forall k :: k != "_id" && k != "__v" && k != DateField ==> Get(Payload(form, toDate), k) == Get(form, k)
    ensures Get(form, DateField).Some? && Truthy(Get(form, DateField).value) ==>
      Get(Payload(form, toDate), DateField) == Some(toDate(Get(form, DateField).value))
    ensures !(Get(form, DateField).Some? && Truthy(Get(form, DateField).value)) ==>
      Get(Payload(form, toDate), DateField) == Get(form, DateField)
  {
    var clean := Delete(Delete(form, "_id"), "__v");
    StripFacts(form);
    var date := Get(clean, DateField);
    assert date == Get(form, DateField);
    if date.Some? && Truthy(date.value) {
      PutWellFormed(clean, DateField, toDate(date.value));
    }
  }

  // ---------------------------------------------------------------- component state

  class InspectionTable {
    var inspections: seq<Obj>
    var error: string
    var searchTerm: string
    var currentPage: int
    var isEditing: bool
    var editingRow: Option<Obj>
    var formData: Obj
    /** The runtime's number-to-text conversion, used by the search. */
    const render: real -> string

    ghost predicate Valid()
      reads this
    {
      && currentPage >= 1
      && (isEditing ==> editingRow.Some?)
      && WellFormed(formData)
      && (forall r :: r in inspections ==> WellFormed(r))
    }

    /** The rows the search keeps. */
    function Filtered(): seq<Obj>
      reads this
    {
      Search(inspections, Columns(inspections), searchTerm, render)
    }

    /** `totalPages`. */
    function TotalPages(): nat
      reads this
    {
      PageCount(|Filtered()|)
    }

    /** `current`: the rows of the current page. */
    function Current(): (rows: seq<Obj>)
      reads this
      requires Valid()
      ensures |rows| <= RowsPerPage
    {
      PageSliceFacts(Filtered(), currentPage);
      PageSlice(Filtered(), currentPage)
    }

    constructor(render: real -> string)
      ensures inspections == [] && error == "" && searchTerm == "" && currentPage == 1
      ensures !isEditing && editingRow == None && formData == []
      ensures this.render == render
      ensures Valid()
    {
      inspections := [];
      error := "";
      searchTerm := "";
      currentPage := 1;
      isEditing := false;
      editingRow := None;
      formData := [];
      this.render := render;
    }

    /** `fetchInspections` once the request settles: the rows on success, the
        error message on failure. */
    method FetchInspections(response: Option<seq<Obj>>)
      requires Valid()
      requires response.Some? ==> forall r :: r in response.value ==> WellFormed(r)
      modifies this
      ensures response.Some? ==> inspections == response.value && error == ""
      ensures response.None? ==> inspections == old(inspections) && error == "Failed to load inspection data."
      ensures searchTerm == old(searchTerm) && currentPage == old(currentPage)
      ensures isEditing == old(isEditing) && editingRow == old(editingRow) && formData == old(formData)
      ensures Valid()
    {
      error := "";
      if response.Some? {
        inspections := response.value;
      } else {
        error := "Failed to load inspection data.";
      }
    }

    /** Typing in the search box; the current page is kept. */
    method SetSearch(term: string)
      requires Valid()
      modifies this
      ensures searchTerm == term
      ensures inspections == old(inspections) && currentPage == old(currentPage)
      ensures isEditing == old(isEditing) && editingRow == old(editingRow) && formData == old(formData)
      ensures Valid()
    {
      searchTerm := term;
    }

    /** `deleteInspection` after the request: when it succeeded the page is
        moved back if it lies past the last page of the rows without the
        deleted one (counted over all rows, not the search result); the rows
        themselves come back with the next fetch. */
    method DeleteInspection(id: Option<Value>, ok: bool)
      requires Valid()
      modifies this
      ensures ok ==> currentPage == AdjustPage(old(currentPage), |Remaining(inspections, id)|)
      ensures !ok ==> currentPage == old(currentPage)
      ensures inspections == old(inspections) && searchTerm == old(searchTerm)
      ensures isEditing == old(isEditing) && editingRow == old(editingRow) && formData == old(formData)
      ensures Valid()
    {
      if ok {
        var newFiltered := Remaining(inspections, id);
        var newTotalPages := PageCount(|newFiltered|);
        if currentPage > newTotalPages {
          currentPage := if newTotalPages == 0 then 1 else newTotalPages;
        }
      }
    }

    /** `openEditModal(row)`: the form starts as a copy of the row. */
    method OpenEditModal(row: Obj)
      requires Valid() && WellFormed(row)
      modifies this
      ensures editingRow == Some(row) && formData == row && isEditing
      ensures inspections == old(inspections) && searchTerm == old(searchTerm) && currentPage == old(currentPage)
      ensures Valid()
    {
      editingRow := Some(row);
      formData := row;
      isEditing := true;
    }

    /** `handleChange` of the edit form; `number` is `Number(value)`. */
    method HandleChange(name: string, value: string, number: real)
      requires Valid()
      modifies this
      ensures formData == Put(old(formData), name, EditedValue(name, value, number))
      ensures inspections == old(inspections) && searchTerm == old(searchTerm) && currentPage == old(currentPage)
      ensures isEditing == old(isEditing) && editingRow == old(editingRow)
      ensures Valid()
    {
      PutWellFormed(formData, name, EditedValue(name, value, number));
      formData := Put(formData, name, EditedValue(name, value, number));
    }

    /** Closing the edit form without saving. */
    method CancelEdit()
      requires Valid()
      modifies this
      ensures !isEditing
      ensures inspections == old(inspections) && searchTerm == old(searchTerm) && currentPage == old(currentPage)
      ensures editingRow == old(editingRow) && formData == old(formData)
      ensures Valid()
    {
      isEditing := false;
    }

    /** `saveEdit`: the request goes to the edited row's `_id` with the
        payload; the form closes when the request succeeded. */
    method SaveEdit(ok: bool, toDate: Value -> Value) returns (target: Option<Value>, payload: Obj)
      requires Valid() && isEditing
      modifies this
      ensures target == Get(old(editingRow).value, "_id")
      ensures payload == Payload(formData, toDate)
      ensures isEditing == !ok
      ensures inspections == old(inspections) && searchTerm == old(searchTerm) && currentPage == old(currentPage)
      ensures editingRow == old(editingRow) && formData == old(formData)
      ensures Valid()
    {
      var cleanData := formData;
      cleanData := Delete(cleanData, "_id");
      cleanData := Delete(cleanData, "__v");
      var date := Get(cleanData, DateField);
      if date.Some? && Truthy(date.value) {
        cleanData := Put(cleanData, DateField, toDate(date.value));
      }
      target := Get(editingRow.value, "_id");
      payload := cleanData;
      if ok {
        isEditing := false;
      }
    }

    /** The Prev button, disabled on page 1. */
    method PrevPage()
      requires Valid()
      modifies this
      ensures currentPage == if old(currentPage) == 1 then 1 else old(currentPage) - 1
      ensures inspections == old(inspections) && searchTerm == old(searchTerm)
      ensures isEditing == old(isEditing) && editingRow == old(editingRow) && formData == old(formData)
      ensures Valid()
    {
      if currentPage != 1 {
        currentPage := currentPage - 1;
      }
    }

    /** The Next button, disabled exactly when the current page is the last
        page; with no rows there are no pages and it stays enabled. */
    method NextPage()
      requires Valid()
      modifies this
      ensures currentPage == if old(currentPage) == TotalPages() then old(currentPage) else old(currentPage) + 1
      ensures inspections == old(inspections) && searchTerm == old(searchTerm)
      ensures isEditing == old(isEditing) && editingRow == old(editingRow) && formData == old(formData)
      ensures Valid()
    {
      if currentPage != TotalPages() {
        currentPage := currentPage + 1;
      }
    }

    /** A numbered page button; one is shown for each page 1 to `totalPages`. */
    method GoToPage(p: int)
      requires Valid() && 1 <= p <= TotalPages()
      modifies this
      ensures Valid() && currentPage == p && |Current()| > 0
      ensures inspections == old(inspections) && searchTerm == old(searchTerm)
      ensures isEditing == old(isEditing) && editingRow == old(editingRow) && formData == old(formData)
      ensures Valid()
    {
      currentPage := p;
      PageNonEmpty(Filtered(), p);
    }
  }
}
