/** The add-inspection form: which typed values each field accepts, the
    pass/fail/abort/pending fields of which at most one is chosen, and the
    checks run before the form is posted. */
module Form {
  import opened Seqs
  import opened JsObject

  // ---------------------------------------------------------------- fields

  /** The first fourteen keys of the initial state. */
  const BasicFields: seq<string> := [
    "serialNo", "year", "month", "inspectionId", "inspectionDate", "servicePerformed",
    "inspectionType", "dpi", "bvFinal", "aktiSelf", "inspectorName", "offeredQtyCtn",
    "offeredQtyPacks", "noOfInspection"]

  /** The four outcome fields, of which the user marks one with "1". */
  const StatusFields: seq<string> := ["pass", "fail", "abort", "pending"]

  /** The read-only field that names the chosen outcome. */
  const StatusField: string := "inspectionStatus"

  /** The required-OQL, actual-finding, major-defect and minor-defect counts. */
  const DefectFields: seq<string> := FindingFields + DefectKindFields

  /** The required-OQL and actual-finding counts and the first major defects. */
  const FindingFields: seq<string> := [
    "major", "minor", "oql", "percentAllowed", "critical", "actualMajor",
    "actualMinor", "actualOql", "pulledTerry", "rawEdge", "weaving", "uncutThread", "stainMajor"]

  /** The remaining major and minor defect counts. */
  const DefectKindFields: seq<string> := [
    "skipStitch", "brokenStitch", "runoffStitch", "poorShape", "pleat", "insecureLabel",
    "missingLabel", "contaminationMajor", "slantLabel", "damageFabric", "hole", "looseStitch",
    "singleUntrimmedThread", "contaminationMinor", "flyYarn", "dustMark", "stainMinor"]

  /** The form's keys in the order of its initial state. */
  const FieldOrder: seq<string> := BasicFields + StatusFields + [StatusField, "sampleSize"] + DefectFields

  /** Fields that take a decimal number typed as text. */
  const NumericFields: seq<string> :=
    ["serialNo", "offeredQtyCtn", "offeredQtyPacks", "noOfInspection", "dpi", "bvFinal", "aktiSelf"]
    + DefectFields + ["sampleSize"]

  /** Fields that take letters and white space only. */
  const TextFields: seq<string> := ["inspectionType", "servicePerformed", "inspectorName"]

  const OfferedCtn: string := "offeredQtyCtn"
  const OfferedPacks: string := "offeredQtyPacks"

  /** The three kinds of checked field are fields of the form, none of them
      is the status label, and no field is of two kinds. */
  lemma DefectFieldKind(f: string)
    requires f in DefectFields
    ensures f !in StatusFields && f !in TextFields && f != StatusField && f != "year" && f != "month"
  {
    if f in FindingFields {
      FindingFieldKind(f);
    } else {
      DefectKindFieldKind(f);
    }
  }

  lemma FindingFieldKind(f: string)
    requires f in FindingFields
    ensures f !in StatusFields && f !in TextFields && f != StatusField && f != "year" && f != "month"
  {
  }

  lemma DefectKindFieldKind(f: string)
    requires f in DefectKindFields
    ensures f !in StatusFields && f !in TextFields && f != StatusField && f != "year" && f != "month"
  {
  }

  /** Numeric and text fields are neither outcome fields nor the status label. */
  lemma NotOutcome(f: string)
    requires f in NumericFields || f in TextFields
    ensures f !in StatusFields && f != StatusField
  {
    if f in NumericFields {
      NumericFieldKind(f);
    } else {
      TextFieldKind(f);
    }
  }

  lemma NumericFieldKind(f: string)
    requires f in NumericFields
    ensures f in FieldOrder && f !in StatusFields && f !in TextFields && f != StatusField && f != "year" && f != "month"
  {
    if f in DefectFields {
      DefectFieldKind(f);
    }
  }

  lemma TextFieldKind(f: string)
    requires f in TextFields
    ensures f in FieldOrder && f !in StatusFields && f !in NumericFields && f != StatusField && f != "year" && f != "month"
  {
    assert f !in DefectFields by {
      if f in DefectFields {
        DefectFieldKind(f);
      }
    }
  }

  lemma StatusFieldKind(f: string)
    requires f in StatusFields
    ensures f in FieldOrder && f !in NumericFields && f !in TextFields && f != StatusField && f != "year" && f != "month"
  {
    assert f !in DefectFields by {
      if f in DefectFields {
        DefectFieldKind(f);
      }
    }
  }

  lemma FieldKinds()
    ensures forall f :: f in NumericFields ==> f in FieldOrder && f !in StatusFields && f !in TextFields && f != StatusField
    ensures forall f :: f in TextFields ==> f in FieldOrder && f !in StatusFields && f !in NumericFields && f != StatusField
    ensures forall f :: f in StatusFields ==> f in FieldOrder && f !in NumericFields && f !in TextFields && f != StatusField
    ensures StatusField in FieldOrder && StatusField !in NumericFields && StatusField !in TextFields
    ensures OfferedCtn in NumericFields && OfferedPacks in NumericFields
  {
    forall f | f in NumericFields ensures f in FieldOrder && f !in StatusFields && f !in TextFields && f != StatusField {
      NumericFieldKind(f);
    }
    forall f | f in TextFields ensures f in FieldOrder && f !in StatusFields && f !in NumericFields && f != StatusField {
      TextFieldKind(f);
    }
    forall f | f in StatusFields ensures f in FieldOrder && f !in NumericFields && f !in TextFields && f != StatusField {
      StatusFieldKind(f);
    }
  }

  /** The fields the user can edit: every field but the read-only status label. */
  predicate Editable(name: string) {
    name in FieldOrder && name != StatusField
  }

  /** `initialState`: the year is the current year, the month is January and
      every other field is empty. */
  function InitialValue(k: string, currentYear: int): Value {
    if k == "year" then Num(currentYear as real)
    else if k == "month" then Str("January")
    else Str("")
  }

  function InitialState(currentYear: int): (o: Obj)
    ensures Keys(o) == FieldOrder
  {
    seq(|FieldOrder|, i requires 0 <= i < |FieldOrder| => Entry(FieldOrder[i], InitialValue(FieldOrder[i], currentYear)))
  }

  // ---------------------------------------------------------------- accepted input

  predicate IsDigit(c: char) {
    '0' <= c <= '9'
  }

  /** `/^[0-9]*\.?[0-9]*$/`: digits with at most one decimal point. */
  predicate NumericText(s: string) {
    && (forall i :: 0 <= i < |s| ==> IsDigit(s[i]) || s[i] == '.')
    && (forall i, j :: 0 <= i < j < |s| && s[i] == '.' ==> s[j] != '.')
  }

  /** The pattern matched left to right: `seenDot` says whether the optional
      point has been consumed. */
  function MatchNumeric(s: string, seenDot: bool): (b: bool)
    ensures b <==> NumericText(s) && (seenDot ==> forall i :: 0 <= i < |s| ==> s[i] != '.')
  {
    if |s| == 0 then true
    else if IsDigit(s[0]) then
      var rest := MatchNumeric(s[1..], seenDot);
      assert forall i :: 1 <= i < |s| ==> s[i] == s[1..][i - 1];
      rest
    else if s[0] == '.' && !seenDot then
      var rest := MatchNumeric(s[1..], true);
      assert forall i :: 1 <= i < |s| ==> s[i] == s[1..][i - 1];
      rest
    else
      false
  }

  /** Characters JavaScript's `\s` matches. */
  predicate IsJsSpace(c: char) {
    c == ' ' || c == '\t' || c == '\n' || c == '\r' || c == '\U{000B}' || c == '\U{000C}'
    || c == '\U{00A0}' || c == '\U{1680}' || ('\U{2000}' <= c <= '\U{200A}')
    || c == '\U{2028}' || c == '\U{2029}' || c == '\U{202F}' || c == '\U{205F}'
    || c == '\U{3000}' || c == '\U{FEFF}'
  }

  predicate IsLetter(c: char) {
    ('a' <= c <= 'z') || ('A' <= c <= 'Z')
  }

  /** `/^[a-zA-Z\s]*$/` */
  predicate LettersAndSpaces(s: string) {
    forall i :: 0 <= i < |s| ==> IsLetter(s[i]) || IsJsSpace(s[i])
  }

  predicate StatusText(s: string) {
    s == "0" || s == "1" || s == ""
  }

  /** Whether `handleChange` takes the typed value or drops the keystroke. */
  predicate Accepts(name: string, value: string) {
    && (name in NumericFields ==> NumericText(value))
    && (name in TextFields ==> LettersAndSpaces(value))
    && (name in StatusFields ==> StatusText(value))
  }

  /** The label of a chosen outcome field. */
  function StatusLabel(name: string): string {
    if name == "pass" then "Passed"
    else if name == "fail" then "Failed"
    else if name == "pending" then "Pending"
    else if name == "abort" then "Aborted"
    else ""
  }

  // ---------------------------------------------------------------- handleChange

  /** The `forEach` that sets every outcome field but `name` to 0, over the
      fields `fs`. */
  function ZeroOthers(o: Obj, name: string, fs: seq<string>): Obj {
    if |fs| == 0 then o
    else
      var u := ZeroOthers(o, name, fs[..|fs| - 1]);
      if fs[|fs| - 1] != name then Put(u, fs[|fs| - 1], Num(0.0)) else u
  }

  /** The fields of `fs` other than `name` hold 0 and every other field keeps its value. */
  lemma {:induction false} ZeroOthersGet(o: Obj, name: string, fs: seq<string>)
    ensures forall f :: f in fs && f != name ==> Get(ZeroOthers(o, name, fs), f) == Some(Num(0.0))
    ensures forall k :: k !in fs || k == name ==> Get(ZeroOthers(o, name, fs), k) == Get(o, k)
  {
    if |fs| > 0 {
      var init := fs[..|fs| - 1];
      ZeroOthersGet(o, name, init);
      assert fs == init + [fs[|fs| - 1]];
    }
  }

  /** Setting fields the object already has leaves its keys as they were. */
  lemma {:induction false} ZeroOthersKeys(o: Obj, name: string, fs: seq<string>)
    requires forall f :: f in fs ==> f in Keys(o)
    ensures Keys(ZeroOthers(o, name, fs)) == Keys(o)
  {
    if |fs| > 0 {
      var init := fs[..|fs| - 1];
      assert forall f :: f in init ==> f in fs;
      ZeroOthersKeys(o, name, init);
    }
  }

  /** Typing "1" in an outcome field: `{...form, [name]: 1}`, the other three
      outcome fields set to 0, and the status label set. */
  function ChooseStatus(o: Obj, name: string): Obj {
    Put(ZeroOthers(Put(o, name, Num(1.0)), name, StatusFields), StatusField, Str(StatusLabel(name)))
  }

  /** What the form becomes after `handleChange(name, value)`. */
  function NextForm(form: Obj, name: string, value: string): Obj {
    if !Accepts(name, value) then form
    else if name in StatusFields && value == "1" then ChooseStatus(form, name)
    else Put(form, name, Str(value))
  }

  /** A rejected value leaves the form as it was. */
  lemma Rejected(form: Obj, name: string, value: string)
    requires !Accepts(name, value)
    ensures NextForm(form, name, value) == form
  {
  }

  /** An accepted value other than a chosen outcome is stored as typed in
      the named field, and no other field changes. */
  lemma StoredAsTyped(form: Obj, name: string, value: string)
    requires Accepts(name, value) && !(name in StatusFields && value == "1")
    ensures Get(NextForm(form, name, value), name) == Some(Str(value))
    ensures forall k :: k != name ==> Get(NextForm(form, name, value), k) == Get(form, k)
  {
  }

  /** Each outcome has its own non-empty label, so the label names the outcome. */
  lemma StatusLabelsDistinct(f: string, g: string)
    requires f in StatusFields && g in StatusFields
    ensures StatusLabel(f) != ""
    ensures StatusLabel(f) == StatusLabel(g) ==> f == g
  {
  }

  /** Typing "1" in an outcome field chooses it. */
  lemma ChooseIsNext(form: Obj, name: string)
    requires name in StatusFields
    ensures NextForm(form, name, "1") == ChooseStatus(form, name)
  {
    StatusFieldKind(name);
    assert Accepts(name, "1");
  }

  /** Choosing an outcome makes it 1, the other three outcomes 0 and the
      status label its name; every other field keeps its value. */
  lemma ChooseStatusFacts(form: Obj, name: string)
    requires name in StatusFields
    ensures Get(ChooseStatus(form, name), name) == Some(Num(1.0))
    ensures forall f :: f in StatusFields && f != name ==> Get(ChooseStatus(form, name), f) == Some(Num(0.0))
    ensures Get(ChooseStatus(form, name), StatusField) == Some(Str(StatusLabel(name)))
    ensures forall k :: k !in StatusFields && k != StatusField ==> Get(ChooseStatus(form, name), k) == Get(form, k)
  {
    StatusFieldKind(name);
    var one := Put(form, name, Num(1.0));
    ZeroOthersGet(one, name, StatusFields);
    forall f | f in StatusFields && f != name
      ensures Get(ChooseStatus(form, name), f) == Some(Num(0.0))
    {
      StatusFieldKind(f);
    }
  }

  /** When the outcome fields and the label are keys of the form, choosing
      an outcome keeps the keys as they were. */
  lemma ChooseStatusKeys(form: Obj, name: string)
    requires name in StatusFields
    requires forall f :: f in StatusFields ==> f in Keys(form)
    requires StatusField in Keys(form)
    ensures Keys(ChooseStatus(form, name)) == Keys(form)
  {
    ZeroOthersKeys(Put(form, name, Num(1.0)), name, StatusFields);
  }

  /** Typing "0" over the chosen outcome unchooses it but leaves its label:
      the handler only writes the label when an outcome is set to 1. */
  lemma UnchooseKeepsLabel(form: Obj, name: string)
    requires name in StatusFields
    ensures !Chosen(NextForm(ChooseStatus(form, name), name, "0"), name)
    ensures Get(NextForm(ChooseStatus(form, name), name, "0"), StatusField) == Some(Str(StatusLabel(name)))
  {
    StatusFieldKind(name);
    ChooseStatusFacts(form, name);
    assert Accepts(name, "0");
    StoredAsTyped(ChooseStatus(form, name), name, "0");
  }

  // ---------------------------------------------------------------- invariant

  predicate HoldsNumber(v: Option<Value>) {
    v.Some? && v.value.Str? && NumericText(v.value.s)
  }

  predicate HoldsLetters(v: Option<Value>) {
    v.Some? && v.value.Str? && LettersAndSpaces(v.value.s)
  }

  /** An outcome field is empty, "0", 0 or 1. */
  predicate HoldsStatus(v: Option<Value>) {
    v == Some(Str("")) || v == Some(Str("0")) || v == Some(Num(0.0)) || v == Some(Num(1.0))
  }

  /** Numeric and text fields hold accepted text and outcome fields 0/1 values. */
  predicate ValuesOk(form: Obj) {
    && (forall f :: f in NumericFields ==> HoldsNumber(Get(form, f)))
    && (forall f :: f in TextFields ==> HoldsLetters(Get(form, f)))
    && (forall f :: f in StatusFields ==> HoldsStatus(Get(form, f)))
  }

  predicate Chosen(form: Obj, f: string) {
    Get(form, f) == Some(Num(1.0))
  }

  /** At most one outcome is chosen, and the status label names it. */
  predicate ChoiceOk(form: Obj) {
    && (forall f, g :: f in StatusFields && g in StatusFields && Chosen(form, f) && Chosen(form, g) ==> f == g)
    && (forall f :: f in StatusFields && Chosen(form, f) ==> Get(form, StatusField) == Some(Str(StatusLabel(f))))
  }

  /** What every reachable form satisfies: its keys are the initial ones in
      their order, its values are accepted ones and its outcome is consistent. */
  predicate FormInvariant(form: Obj) {
    Keys(form) == FieldOrder && ValuesOk(form) && ChoiceOk(form)
  }

  /** A field of a list built entry by entry from `value` holds `value` of its key. */
  lemma {:induction false} GetBuilt(o: Obj, k: string, value: string -> Value)
    requires forall i :: 0 <= i < |o| ==> o[i].value == value(o[i].key)
    requires k in Keys(o)
    ensures Get(o, k) == Some(value(k))
  {
    if o[0].key != k {
      assert k in Keys(o[1..]);
      GetBuilt(o[1..], k, value);
    }
  }

  lemma InitialGet(currentYear: int, k: string)
    requires k in FieldOrder
    ensures Get(InitialState(currentYear), k) == Some(InitialValue(k, currentYear))
  {
    GetBuilt(InitialState(currentYear), k, k => InitialValue(k, currentYear));
  }

  /** In the initial form the numeric and text fields are empty or hold the
      current year or the month, and the outcome fields are empty. */
  lemma InitialValues(currentYear: int)
    ensures ValuesOk(InitialState(currentYear))
  {
    var o := InitialState(currentYear);
    forall f | f in NumericFields ensures Get(o, f) == Some(Str("")) {
      NumericFieldKind(f);
      InitialGet(currentYear, f);
    }
    forall f | f in TextFields ensures Get(o, f) == Some(Str("")) {
      TextFieldKind(f);
      InitialGet(currentYear, f);
    }
    forall f | f in StatusFields ensures Get(o, f) == Some(Str("")) {
      StatusFieldKind(f);
      InitialGet(currentYear, f);
    }
  }

  /** The initial form satisfies the invariant, and its status label is empty. */
  lemma InitialInvariant(currentYear: int)
    ensures FormInvariant(InitialState(currentYear))
    ensures Get(InitialState(currentYear), StatusField) == Some(Str(""))
  {
    var o := InitialState(currentYear);
    InitialValues(currentYear);
    InitialNoChoice(currentYear);
    assert FieldOrder[|BasicFields| + |StatusFields|] == StatusField;
    InitialGet(currentYear, StatusField);
  }

  lemma InitialNoChoice(currentYear: int)
    ensures forall f :: f in StatusFields ==> !Chosen(InitialState(currentYear), f)
  {
    forall f | f in StatusFields ensures !Chosen(InitialState(currentYear), f) {
      StatusFieldKind(f);
      InitialGet(currentYear, f);
    }
  }

  /** Storing an accepted value as typed keeps the values accepted. */
  lemma PutKeepsValues(form: Obj, name: string, value: string)
    requires ValuesOk(form)
    requires Accepts(name, value) && !(name in StatusFields && value == "1")
    ensures ValuesOk(Put(form, name, Str(value)))
  {
    var next := Put(form, name, Str(value));
    forall f | f in StatusFields ensures HoldsStatus(Get(next, f)) {
      if f == name {
        assert value == "" || value == "0";
      }
    }
  }

  /** Storing a value as typed in a field other than the status label keeps the outcome consistent. */
  lemma PutKeepsChoice(form: Obj, name: string, value: string)
    requires ChoiceOk(form) && name != StatusField
    ensures ChoiceOk(Put(form, name, Str(value)))
  {
    var next := Put(form, name, Str(value));
    assert !Chosen(next, name);
    assert Get(next, StatusField) == Get(form, StatusField);
    assert forall f :: f != name ==> Chosen(next, f) == Chosen(form, f);
  }

  /** Choosing an outcome keeps the values accepted. */
  lemma ChooseKeepsValues(form: Obj, name: string)
    requires ValuesOk(form) && name in StatusFields
    ensures ValuesOk(ChooseStatus(form, name))
  {
    var next := ChooseStatus(form, name);
    ChooseStatusFacts(form, name);
    forall f | f in NumericFields || f in TextFields ensures Get(next, f) == Get(form, f) {
      NotOutcome(f);
    }
    assert forall f :: f in NumericFields ==> HoldsNumber(Get(next, f));
    assert forall f :: f in TextFields ==> HoldsLetters(Get(next, f));
    assert forall f :: f in StatusFields ==> HoldsStatus(Get(next, f));
  }

  /** Choosing an outcome makes it the only chosen one, named by the label. */
  lemma ChooseKeepsChoice(form: Obj, name: string)
    requires name in StatusFields
    ensures ChoiceOk(ChooseStatus(form, name))
  {
    var next := ChooseStatus(form, name);
    ChooseStatusFacts(form, name);
    assert forall f :: f in StatusFields && Chosen(next, f) ==> f == name;
  }

  /** Every accepted or rejected keystroke in an editable field keeps the invariant. */
  lemma NextFormInvariant(form: Obj, name: string, value: string)
    requires FormInvariant(form) && Editable(name)
    ensures FormInvariant(NextForm(form, name, value))
  {
    if Accepts(name, value) {
      if name in StatusFields && value == "1" {
        ChooseIsNext(form, name);
        ChooseKeepsValues(form, name);
        ChooseKeepsChoice(form, name);
        FieldKinds();
        ChooseStatusKeys(form, name);
      } else {
        PutKeepsValues(form, name, value);
        PutKeepsChoice(form, name, value);
      }
    }
  }

  // ---------------------------------------------------------------- submit

  /** `form[key] === "" || form[key] === null` */
  predicate Blank(v: Option<Value>) {
    v == Some(Str("")) || v == Some(Null)
  }

  /** Key `i` of `ks` is blank and no key before it is. */
  predicate FirstBlankAtIndex(form: Obj, ks: seq<string>, i: int) {
    0 <= i < |ks| && Blank(Get(form, ks[i])) && forall j :: 0 <= j < i ==> !Blank(Get(form, ks[j]))
  }

  /** The first of the keys `ks` whose field is blank, if any. */
  function FirstBlank(form: Obj, ks: seq<string>): (r: Option<string>)
    ensures r.None? <==> forall i :: 0 <= i < |ks| ==> !Blank(Get(form, ks[i]))
    ensures r.Some? ==> exists i :: FirstBlankAtIndex(form, ks, i) && ks[i] == r.value
  {
    if |ks| == 0 then None
    else if Blank(Get(form, ks[0])) then
      assert FirstBlankAtIndex(form, ks, 0);
      Some(ks[0])
    else
      var rest := FirstBlank(form, ks[1..]);
      FirstBlankShift(form, ks, rest);
      rest
  }

  lemma FirstBlankShift(form: Obj, ks: seq<string>, r: Option<string>)
    requires |ks| > 0 && !Blank(Get(form, ks[0]))
    requires r.None? <==> forall i :: 0 <= i < |ks[1..]| ==> !Blank(Get(form, ks[1..][i]))
    requires r.Some? ==> exists i :: FirstBlankAtIndex(form, ks[1..], i) && ks[1..][i] == r.value
    ensures r.None? <==> forall i :: 0 <= i < |ks| ==> !Blank(Get(form, ks[i]))
    ensures r.Some? ==> exists i :: FirstBlankAtIndex(form, ks, i) && ks[i] == r.value
  {
    assert forall i :: 1 <= i < |ks| ==> ks[i] == ks[1..][i - 1];
    if r.Some? {
      var i :| FirstBlankAtIndex(form, ks[1..], i) && ks[1..][i] == r.value;
      assert FirstBlankAtIndex(form, ks, i + 1);
    }
  }

  /** The value of decimal digits. */
  function DigitsValue(ds: string): nat
    requires forall i :: 0 <= i < |ds| ==> IsDigit(ds[i])
  {
    if |ds| == 0 then 0
    else DigitsValue(ds[..|ds| - 1]) * 10 + DigitValue(ds[|ds| - 1])
  }

  function DigitValue(c: char): (d: nat)
    requires IsDigit(c)
    ensures d <= 9
  {
    c as int - '0' as int
  }

  function Pow10(n: nat): (p: nat)
    ensures p >= 1
  {
    if n == 0 then 1 else 10 * Pow10(n - 1)
  }

  /** Position of the decimal point, or the length when there is none. */
  function PointAt(s: string): (i: nat)
    ensures i <= |s|
    ensures i < |s| ==> s[i] == '.'
    ensures forall j :: 0 <= j < i ==> s[j] != '.'
  {
    if |s| == 0 then 0 else if s[0] == '.' then 0 else 1 + PointAt(s[1..])
  }

  /** `Number(s)` on text the numeric pattern accepts: the empty text is 0, a
      lone point is `NaN` (`None`), and otherwise the digits before and after
      the point give the value as an exact decimal, where the runtime would
      round it to the nearest double. */
  function NumberOfText(s: string): (r: Option<real>)
    requires NumericText(s)
    ensures s == "" ==> r == Some(0.0)
    ensures s == "." ==> r == None
    ensures r.Some? ==> r.value >= 0.0
  {
    var p := PointAt(s);
    var whole := s[..p];
    var frac := if p < |s| then s[p + 1..] else "";
    assert forall i :: 0 <= i < |whole| ==> whole[i] == s[i];
    assert forall i :: 0 <= i < |frac| ==> frac[i] == s[p + 1 + i];
    if s == "." then None
    else Some(DigitsValue(whole) as real + DigitsValue(frac) as real / Pow10(|frac|) as real)
  }

  /** The decimal text of a natural number. */
  function NatText(n: nat): (s: string)
    ensures |s| >= 1
    ensures forall i :: 0 <= i < |s| ==> IsDigit(s[i])
  {
    if n < 10 then [('0' as int + n) as char]
    else NatText(n / 10) + [('0' as int + n % 10) as char]
  }

  lemma {:induction false} DigitsOfNatText(n: nat)
    ensures DigitsValue(NatText(n)) == n
  {
    var s := NatText(n);
    if n >= 10 {
      DigitsOfNatText(n / 10);
      assert s[..|s| - 1] == NatText(n / 10);
    }
  }

  /** A whole number typed in a numeric field is read back as that number. */
  lemma NatTextRoundTrip(n: nat)
    ensures NumericText(NatText(n))
    ensures NumberOfText(NatText(n)) == Some(n as real)
  {
    var s := NatText(n);
    DigitsOfNatText(n);
    assert forall i :: 0 <= i < |s| ==> s[i] != '.';
    assert PointAt(s) == |s|;
    assert s[..|s|] == s;
  }

  /** Appending digits `f` shifts the value of `w` left by `|f|` places. */
  lemma {:induction false} DigitsValueAppend(w: string, f: string)
    requires forall i :: 0 <= i < |w| ==> IsDigit(w[i])
    requires forall i :: 0 <= i < |f| ==> IsDigit(f[i])
    ensures forall i :: 0 <= i < |w + f| ==> IsDigit((w + f)[i])
    ensures DigitsValue(w + f) == DigitsValue(w) * Pow10(|f|) + DigitsValue(f)
  {
    if |f| > 0 {
      var g := f[..|f| - 1];
      var d := DigitValue(f[|f| - 1]);
      assert (w + f)[..|w + f| - 1] == w + g;
      assert (w + f)[|w + f| - 1] == f[|f| - 1];
      DigitsValueAppend(w, g);
      assert DigitsValue(f) == DigitsValue(g) * 10 + d;
      assert Pow10(|f|) == Pow10(|g|) * 10;
      ShiftDigit(DigitsValue(w), Pow10(|g|), DigitsValue(g), d);
    } else {
      assert w + f == w;
    }
  }

  lemma ShiftDigit(a: nat, p: nat, b: nat, d: nat)
    ensures (a * p + b) * 10 + d == a * (p * 10) + (b * 10 + d)
  {
  }

  /** In `w + "." + f` with digits `w` and `f`, the point is at `|w|`. */
  lemma PointOfDecimal(w: string, f: string)
    requires forall i :: 0 <= i < |w| ==> IsDigit(w[i])
    requires forall i :: 0 <= i < |f| ==> IsDigit(f[i])
    ensures NumericText(w + "." + f)
    ensures PointAt(w + "." + f) == |w|
    ensures (w + "." + f)[..|w|] == w && (w + "." + f)[|w| + 1..] == f
  {
    var s := w + "." + f;
    forall i | 0 <= i < |s| && i != |w| ensures IsDigit(s[i]) {
      if i < |w| { assert s[i] == w[i]; } else { assert s[i] == f[i - |w| - 1]; }
    }
    assert s[|w|] == '.';
    OnlyPointAt(s, |w|);
    assert s[..|w|] == w && s[|w| + 1..] == f;
  }

  /** Text whose only non-digit is a point at `p`. */
  lemma OnlyPointAt(s: string, p: nat)
    requires p < |s| && s[p] == '.'
    requires forall i :: 0 <= i < |s| && i != p ==> IsDigit(s[i])
    ensures NumericText(s) && PointAt(s) == p
  {
  }

  /** Text of digits alone has no point. */
  lemma PointOfWhole(w: string)
    requires forall i :: 0 <= i < |w| ==> IsDigit(w[i])
    ensures NumericText(w) && PointAt(w) == |w| && w[..PointAt(w)] == w && w != "."
  {
    assert forall i :: 0 <= i < |w| ==> w[i] != '.';
  }

  /** Whole digits `w` read as a whole number: "007" is 7. */
  lemma WholeValue(w: string)
    requires forall i :: 0 <= i < |w| ==> IsDigit(w[i])
    ensures NumericText(w) && NumberOfText(w) == Some(DigitsValue(w) as real)
  {
    PointOfWhole(w);
    NoPointValue(w);
  }

  lemma NoPointValue(s: string)
    requires NumericText(s) && PointAt(s) == |s| && s != "."
    ensures forall i :: 0 <= i < |s[..PointAt(s)]| ==> IsDigit(s[..PointAt(s)][i])
    ensures NumberOfText(s) == Some(DigitsValue(s[..PointAt(s)]) as real)
  {
  }

  /** `w.f` is the digits of `w` and `f` together, shifted right by `|f|`
      places: "5." is 5 and "2.5" is 25/10. */
  lemma DecimalValue(w: string, f: string)
    requires forall i :: 0 <= i < |w| ==> IsDigit(w[i])
    requires forall i :: 0 <= i < |f| ==> IsDigit(f[i])
    requires |w| + |f| > 0
    ensures NumericText(w + "." + f)
    ensures forall i :: 0 <= i < |w + f| ==> IsDigit((w + f)[i])
    ensures NumberOfText(w + "." + f) == Some(DigitsValue(w + f) as real / Pow10(|f|) as real)
  {
    PointOfDecimal(w, f);
    assert w + "." + f != ".";
    DigitsValueAppend(w, f);
    ShiftSum(DigitsValue(w), DigitsValue(f), Pow10(|f|));
  }

  lemma ShiftSum(a: nat, b: nat, p: nat)
    requires p >= 1
    ensures a as real + b as real / p as real == (a * p + b) as real / p as real
  {
  }

  /** `Number(a) > Number(b)`: false when either side is `NaN`. */
  predicate Exceeds(a: Option<real>, b: Option<real>) {
    a.Some? && b.Some? && a.value > b.value
  }

  datatype SubmitOutcome = MissingField(field: string) | CtnExceedsPacks | Ready

  /** Both quantities the carton check reads hold accepted numeric text. */
  predicate QuantitiesReadable(form: Obj) {
    HoldsNumber(Get(form, OfferedCtn)) && HoldsNumber(Get(form, OfferedPacks))
  }

  /** `Number(form.offeredQtyCtn) > Number(form.offeredQtyPacks)` */
  predicate CtnTooMany(form: Obj)
    requires QuantitiesReadable(form)
  {
    Exceeds(NumberOfText(Get(form, OfferedCtn).value.s), NumberOfText(Get(form, OfferedPacks).value.s))
  }

  /** The checks of `handleSubmit`, in order: the first blank field by key
      order, then offered cartons against offered packs. */
  function SubmitCheck(form: Obj): (r: SubmitOutcome)
    requires QuantitiesReadable(form)
    ensures r.MissingField? ==> r.field in Keys(form) && Blank(Get(form, r.field))
    ensures r.MissingField? <==> exists k :: k in Keys(form) && Blank(Get(form, k))
    ensures r == CtnExceedsPacks <==> (forall k :: k in Keys(form) ==> !Blank(Get(form, k))) && CtnTooMany(form)
    ensures r == Ready <==> (forall k :: k in Keys(form) ==> !Blank(Get(form, k))) && !CtnTooMany(form)
  {
    var blank := FirstBlank(form, Keys(form));
    if blank.Some? then MissingField(blank.value)
    else if CtnTooMany(form) then CtnExceedsPacks
    else Ready
  }

  /** The reported field is the first blank one in key order. */
  lemma SubmitReportsFirst(form: Obj, i: nat)
    requires QuantitiesReadable(form)
    requires i < |Keys(form)| && Blank(Get(form, Keys(form)[i]))
    ensures SubmitCheck(form).MissingField?
    ensures exists j :: j <= i && FirstBlankAtIndex(form, Keys(form), j) && Keys(form)[j] == SubmitCheck(form).field
  {
    var ks := Keys(form);
    var r := FirstBlank(form, ks);
    var j :| FirstBlankAtIndex(form, ks, j) && ks[j] == r.value;
    assert j <= i;
  }

  /** The untouched form is refused, naming its first field. */
  lemma InitialSubmit(currentYear: int)
    ensures QuantitiesReadable(InitialState(currentYear))
    ensures SubmitCheck(InitialState(currentYear)) == MissingField("serialNo")
  {
    var o := InitialState(currentYear);
    InitialInvariant(currentYear);
    FieldKinds();
    assert Keys(o)[0] == "serialNo";
    InitialGet(currentYear, "serialNo");
    FirstBlankAt(o, Keys(o), 0);
  }

  /** When the keys before position `i` are not blank and key `i` is, key `i`
      is the first blank one. */
  lemma {:induction false} FirstBlankAt(form: Obj, ks: seq<string>, i: nat)
    requires FirstBlankAtIndex(form, ks, i)
    ensures FirstBlank(form, ks) == Some(ks[i])
  {
    if i > 0 {
      assert FirstBlankAtIndex(form, ks[1..], i - 1);
      FirstBlankAt(form, ks[1..], i - 1);
    }
  }

  /** The `forEach` over the fields `fs` that sets each one other than `name` to 0. */
  method ZeroOtherFields(o: Obj, name: string, fs: seq<string>) returns (updated: Obj)
    ensures updated == ZeroOthers(o, name, fs)
  {
    updated := o;
    for j := 0 to |fs|
      invariant updated == ZeroOthers(o, name, fs[..j])
    {
      assert fs[..j + 1][..j] == fs[..j];
      if fs[j] != name {
        updated := Put(updated, fs[j], Num(0.0));
      }
    }
    assert fs[..|fs|] == fs;
  }

  /** The `for...in` loop over the keys `ks` that stops at the first blank field. */
  method FindBlank(form: Obj, ks: seq<string>) returns (r: Option<string>)
    ensures r == FirstBlank(form, ks)
  {
    var i := 0;
    while i < |ks|
      invariant 0 <= i <= |ks|
      invariant forall j :: 0 <= j < i ==> !Blank(Get(form, ks[j]))
    {
      var v := Get(form, ks[i]);
      if v == Some(Str("")) || v == Some(Null) {
        FirstBlankAt(form, ks, i);
        return Some(ks[i]);
      }
      i := i + 1;
    }
    return None;
  }

  /** The body of `handleChange`: the checks in the order the handler makes
      them, each with its early return, and the form it sets. */
  method ChangedForm(form: Obj, name: string, value: string) returns (next: Obj)
    ensures next == NextForm(form, name, value)
  {
    var newValue := value;
    if name in NumericFields {
      if value == "" || MatchNumeric(value, false) {
        newValue := value;
      } else {
        assert !Accepts(name, value);
        return form;
      }
    }
    if name in TextFields {
      if !LettersAndSpaces(value) {
        assert !Accepts(name, value);
        return form;
      }
      newValue := value;
    }
    if name in StatusFields {
      if value != "0" && value != "1" && value != "" {
        assert !Accepts(name, value);
        return form;
      }
      if value == "1" {
        ChooseIsNext(form, name);
        var updated := Put(form, name, Num(1.0));
        updated := ZeroOtherFields(updated, name, StatusFields);
        updated := Put(updated, StatusField, Str(StatusLabel(name)));
        return updated;
      }
    }
    assert Accepts(name, value) && !(name in StatusFields && value == "1");
    return Put(form, name, Str(newValue));
  }

  /** What `handleSubmit` leaves in the message line. */
  datatype Message = NoMessage | FillField(field: string) | CtnTooLarge | Added | SaveFailed

  // ---------------------------------------------------------------- component state

  class InspectionForm {
    var form: Obj
    var message: Message
    /** The year of the runtime's clock when the form was created. */
    const currentYear: int

    ghost predicate Valid()
      reads this
    {
      FormInvariant(form)
    }

    constructor(currentYear: int)
      ensures form == InitialState(currentYear) && message == NoMessage
      ensures this.currentYear == currentYear
      ensures Valid()
    {
      this.currentYear := currentYear;
      form := InitialState(currentYear);
      message := NoMessage;
      InitialInvariant(currentYear);
    }

    /** `handleChange` for an input the form renders. */
    method HandleChange(name: string, value: string)
      requires Valid() && Editable(name)
      modifies this
      ensures form == NextForm(old(form), name, value)
      ensures message == old(message)
      ensures Valid()
    {
      NextFormInvariant(form, name, value);
      form := ChangedForm(form, name, value);
    }

    /** The validation part of `handleSubmit`: the `for...in` loop over the
        keys with its early return, then the carton check. */
    method Validate() returns (outcome: SubmitOutcome)
      requires QuantitiesReadable(form)
      ensures outcome == SubmitCheck(form)
    {
      var blank := FindBlank(form, Keys(form));
      if blank.Some? {
        return MissingField(blank.value);
      }
      var ctn := NumberOfText(Get(form, OfferedCtn).value.s);
      var packs := NumberOfText(Get(form, OfferedPacks).value.s);
      if ctn.Some? && packs.Some? && ctn.value > packs.value {
        outcome := CtnExceedsPacks;
      } else {
        outcome := Ready;
      }
    }

    /** `handleSubmit`: on a failed check the message says why and the form
        stays; otherwise the post is made and, when it succeeds, the form is
        reset. `postOk` is the outcome of the request. */
    method HandleSubmit(postOk: bool)
      requires Valid()
      modifies this
      ensures QuantitiesReadable(old(form))
      ensures SubmitCheck(old(form)).MissingField? ==>
        message == FillField(SubmitCheck(old(form)).field) && form == old(form)
      ensures SubmitCheck(old(form)) == CtnExceedsPacks ==> message == CtnTooLarge && form == old(form)
      ensures SubmitCheck(old(form)) == Ready && postOk ==> message == Added && form == InitialState(currentYear)
      ensures SubmitCheck(old(form)) == Ready && !postOk ==> message == SaveFailed && form == old(form)
      ensures Valid()
    {
      assert OfferedCtn == NumericFields[1] && OfferedPacks == NumericFields[2];
      message := NoMessage;
      var outcome := Validate();
      match outcome {
        case MissingField(k) =>
          message := FillField(k);
        case CtnExceedsPacks =>
          message := CtnTooLarge;
        case Ready =>
          if postOk {
            message := Added;
            form := InitialState(currentYear);
            InitialInvariant(currentYear);
          } else {
            message := SaveFailed;
          }
      }
    }
  }
}
