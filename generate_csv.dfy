/**
 * generate_csv.py: one CSV row of 32 text columns per scholarship document,
 * read out of the document by top-level keys, dotted paths and the
 * comma-list normalisation.  Its `flatten_dict` is `JsonValues.Flatten`.
 */
module CsvExport {
  import opened Wrappers
  import opened Text
  import opened Dicts
  import opened JsonValues
  import Filters

  // ---------------------------------------------------------------------------
  // get_nested_value
  // ---------------------------------------------------------------------------

  /**
   * The walk of `get_nested_value` over `keys`: `None` as soon as a step
   * meets something that is not a dict, or a key that is missing or null.
   */
  function Lookup(v: Json, keys: seq<string>): Option<Json>
    decreases keys
  {
    if keys == [] then Some(v)
    else if !v.Obj? then None
    else
      match Get(v.members, keys[0])
      case None => None
      case Some(x) => if x.Null? then None else Lookup(x, keys[1..])
  }

  /** `str(v) for v in value if v`. */
  function TruthyStrs(items: seq<Json>): (r: seq<string>)
    ensures |r| <= |items|
  {
    if items == [] then []
    else (if Truthy(items[0]) then [PyStr(items[0])] else []) + TruthyStrs(items[1..])
  }

  /** How a found value is turned into text: a list as its truthy elements joined by "; ", else `str()`. */
  function Rendered(v: Json): string {
    if v.Arr? then Join("; ", TruthyStrs(v.items)) else PyStr(v)
  }

  /** `get_nested_value(data, path, default)`. */
  function NestedValueOf(data: Json, path: string, default: string): string {
    match Lookup(data, Split(path, "."))
    case None => default
    case Some(v) => Rendered(v)
  }

  /** The loop of `get_nested_value`, reassigning `value` one key at a time. */
  method GetNestedValue(data: Json, path: string, default: string) returns (r: string)
    ensures r == NestedValueOf(data, path, default)
  {
    var keys := Split(path, ".");
    var value := data;
    for i := 0 to |keys|
      invariant Lookup(value, keys[i..]) == Lookup(data, keys)
      invariant !value.Null? || i == 0
    {
      assert keys[i..][1..] == keys[i + 1..];
      if value.Obj? {
        var next := Get(value.members, keys[i]);
        if next.None? || next.value.Null? {
          return default;
        }
        value := next.value;
      } else {
        return default;
      }
    }
    assert keys[|keys|..] == [];
    if value.Arr? {
      return Join("; ", TruthyStrs(value.items));
    }
    if value.Null? {
      return default;
    }
    return PyStr(value);
  }

  // ---------------------------------------------------------------------------
  // Properties of get_nested_value
  // ---------------------------------------------------------------------------

  /** A walk that takes at least one step never ends on null, so the last `is None` test is dead. */
  lemma {:induction false} LookupNotNull(v: Json, keys: seq<string>)
    requires keys != []
    ensures Lookup(v, keys).Some? ==> !Lookup(v, keys).value.Null?
    decreases keys
  {
    if v.Obj? {
      var g := Get(v.members, keys[0]);
      if g.Some? && !g.value.Null? && keys[1..] != [] {
        LookupNotNull(g.value, keys[1..]);
      }
    }
  }

  /** Anything but a dict at the start, or a first key that is missing or null, gives the default. */
  lemma FirstStepDefault(data: Json, path: string, default: string)
    requires !data.Obj? || Get(data.members, Split(path, ".")[0]) in {None, Some(Null)}
    ensures NestedValueOf(data, path, default) == default
  {
  }

  /** A dotted path follows the dicts key by key: `a.b` in `data` is `b` in `data['a']`. */
  lemma StepIn(ms: Dict<Json>, k: string, x: Json, rest: string, default: string)
    requires '.' !in k && Get(ms, k) == Some(x) && !x.Null?
    ensures NestedValueOf(Obj(ms), k + "." + rest, default) == NestedValueOf(x, rest, default)
  {
    SplitFirst(k, ".", rest);
  }

  /** A key without a dot names one member: its string value, or the default when missing or null. */
  lemma LeafString(ms: Dict<Json>, k: string, default: string)
    requires '.' !in k
    ensures Get(ms, k).Some? && Get(ms, k).value.Str? ==> NestedValueOf(Obj(ms), k, default) == Get(ms, k).value.s
    ensures Get(ms, k) in {None, Some(Null)} ==> NestedValueOf(Obj(ms), k, default) == default
  {
    SplitNone(k, ".");
    assert [k][1..] == [];
    var g := Get(ms, k);
    if g.Some? && g.value.Str? {
      assert Lookup(Obj(ms), [k]) == Lookup(g.value, []) == Some(g.value);
    }
  }

  /** A two-key path such as "flags.essay_required" reads a string member of a member dict. */
  lemma TwoKeys(ms: Dict<Json>, k1: string, inner: Dict<Json>, k2: string, default: string)
    requires '.' !in k1 && '.' !in k2
    requires Get(ms, k1) == Some(Obj(inner))
    ensures Get(inner, k2).Some? && Get(inner, k2).value.Str? ==>
      NestedValueOf(Obj(ms), k1 + "." + k2, default) == Get(inner, k2).value.s
    ensures Get(inner, k2) in {None, Some(Null)} ==> NestedValueOf(Obj(ms), k1 + "." + k2, default) == default
  {
    StepIn(ms, k1, Obj(inner), k2, default);
    LeafString(inner, k2, default);
  }

  /** A list leaf gives the `str()` of exactly its truthy elements, in order, joined by "; ". */
  lemma {:induction false} TruthyStrsSpec(items: seq<Json>)
    ensures forall x :: x in TruthyStrs(items) <==> exists j :: 0 <= j < |items| && Truthy(items[j]) && x == PyStr(items[j])
    ensures (forall j :: 0 <= j < |items| ==> Truthy(items[j])) ==> |TruthyStrs(items)| == |items|
  {
    if items != [] {
      TruthyStrsSpec(items[1..]);
      var head := if Truthy(items[0]) then [PyStr(items[0])] else [];
      assert TruthyStrs(items) == head + TruthyStrs(items[1..]);
      forall x | x in TruthyStrs(items)
        ensures exists j :: 0 <= j < |items| && Truthy(items[j]) && x == PyStr(items[j])
      {
        if x !in head {
          var j :| 0 <= j < |items[1..]| && Truthy(items[1..][j]) && x == PyStr(items[1..][j]);
          assert items[j + 1] == items[1..][j];
        }
      }
      forall x | exists j :: 0 <= j < |items| && Truthy(items[j]) && x == PyStr(items[j])
        ensures x in TruthyStrs(items)
      {
        var j :| 0 <= j < |items| && Truthy(items[j]) && x == PyStr(items[j]);
        if j > 0 {
          assert items[1..][j - 1] == items[j];
        }
      }
      if forall j :: 0 <= j < |items| ==> Truthy(items[j]) {
        assert forall j :: 0 <= j < |items[1..]| ==> items[1..][j] == items[j + 1];
      }
    }
  }

  // ---------------------------------------------------------------------------
  // parse_comma_separated
  // ---------------------------------------------------------------------------

  /** `str(v).strip() for v in value if v and str(v).strip()`. */
  function ListPieces(items: seq<Json>): (r: seq<string>)
    ensures |r| <= |items|
  {
    if items == [] then []
    else
      (if Truthy(items[0]) && Strip(PyStr(items[0])) != [] then [Strip(PyStr(items[0]))] else [])
      + ListPieces(items[1..])
  }

  /** `parse_comma_separated(value)` of generate_csv.py, which joins with "; ". */
  function CsvList(v: Json): string {
    match v
    case Null => ""
    case Arr(items) => Join("; ", ListPieces(items))
    case Str(s) => Join("; ", Filters.CleanPieces(Split(s, ",")))
    case _ => if Truthy(v) then Strip(PyStr(v)) else ""
  }

  /** Joined non-empty stripped parts have no whitespace at either end. */
  lemma JoinStripped(parts: seq<string>)
    requires forall i :: 0 <= i < |parts| ==> parts[i] != [] && Strip(parts[i]) == parts[i]
    ensures Strip(Join("; ", parts)) == Join("; ", parts)
  {
    if parts != [] {
      JoinEnds("; ", parts);
      var j := Join("; ", parts);
      var first := parts[0];
      var last := parts[|parts| - 1];
      assert j[0] == first[0];
      assert j[|j| - 1] == last[|last| - 1];
      StripNoop(j);
    }
  }

  /**
   * On a string, the result holds no comma and no whitespace at either end,
   * and its non-empty comma pieces are kept, stripped, in order.
   */
  lemma StringList(s: string)
    ensures ',' !in CsvList(Str(s))
    ensures Strip(CsvList(Str(s))) == CsvList(Str(s))
    ensures CsvList(Str(s)) == Join("; ", Filters.ParseList(Str(s)))
  {
    var ps := Filters.CleanPieces(Split(s, ","));
    Filters.ParseListSpec(Str(s));
    JoinAvoids("; ", ps, ',');
    JoinStripped(ps);
  }

  /** Applying the function to its own output changes nothing. */
  lemma ListIdempotent(s: string)
    ensures CsvList(Str(CsvList(Str(s)))) == CsvList(Str(s))
  {
    var r := CsvList(Str(s));
    StringList(s);
    SplitNone(r, ",");
    assert Filters.CleanPieces([r]) == (if r != [] then [r] else []) + Filters.CleanPieces([]);
  }

  /** The list columns of a row never hold a comma and are stripped, and normalising them again changes nothing. */
  lemma ListCellClean(ms: Dict<Json>, path: string)
    ensures ',' !in ListCell(ms, path).s && Strip(ListCell(ms, path).s) == ListCell(ms, path).s
    ensures CsvList(ListCell(ms, path)) == ListCell(ms, path).s
  {
    StringList(NestedValueOf(Obj(ms), path, ""));
    ListIdempotent(NestedValueOf(Obj(ms), path, ""));
  }

  /** `None` gives the empty string. */
  lemma NullList()
    ensures CsvList(Null) == ""
  {
  }

  // ---------------------------------------------------------------------------
  // extract_scholarship_data
  // ---------------------------------------------------------------------------

  /** The CSV header of `main`, in order. */
  const Columns: seq<string> := [
    "name_of_scholarship", "foundation", "date_opens", "date_closes", "description",
    "dollar_amount", "amount_text", "essay_required", "need_based", "merit_based",
    "application_website", "original_bigfuture_link", "pursued_degree_level", "current_grade",
    "country", "state", "county", "city", "current_school", "minimum_gpa",
    "intended_area_of_study", "requirements", "status", "url",
    "citizenship_status", "activities", "affiliations", "armed_service_branch",
    "armed_service_status", "maximum_age", "minimum_age", "situation"
  ]

  /** `d.get(k, dflt)`. */
  function GetOr(d: Dict<Json>, k: string, dflt: Json): (r: Json)
    ensures Get(d, k).Some? ==> r == Get(d, k).value
    ensures Get(d, k).None? ==> r == dflt
  {
    match Get(d, k)
    case None => dflt
    case Some(x) => x
  }

  /** `get_nested_value(data, path, '')` as a cell. */
  function NestedCell(ms: Dict<Json>, path: string): Json {
    Str(NestedValueOf(Obj(ms), path, ""))
  }

  /** `parse_comma_separated(get_nested_value(data, path, ''))` as a cell. */
  function ListCell(ms: Dict<Json>, path: string): Json {
    Str(CsvList(Str(NestedValueOf(Obj(ms), path, ""))))
  }

  const Varies := "Award Amount Varies"

  /** `str(data.get('amount', '')).replace('Award Amount Varies', '').strip()`. */
  function DollarAmount(ms: Dict<Json>): string {
    Strip(RemoveAll(PyStr(GetOr(ms, "amount", Str(""))), Varies))
  }

  /**
   * The `requirements` cell: a list is joined with "; ", which raises on a
   * non-string element (`None` here); any other value is `str()`-ed.
   */
  function RequirementsCell(ms: Dict<Json>): Option<Json> {
    var req := GetOr(ms, "requirements", Arr([]));
    if Get(ms, "requirements").Some? && req.Arr? then
      if forall i :: 0 <= i < |req.items| ==> req.items[i].Str? then
        Some(Str(Join("; ", seq(|req.items|, i requires 0 <= i < |req.items| && req.items[i].Str? => req.items[i].s))))
      else None
    else Some(Str(PyStr(GetOr(ms, "requirements", Str("")))))
  }

  /** The keys of the dict literal that `extract_scholarship_data` builds, in its order. */
  const RowKeys: seq<string> := [
    "name_of_scholarship", "foundation", "date_opens", "date_closes", "description",
    "dollar_amount", "amount_text", "essay_required", "need_based", "merit_based",
    "application_website", "original_bigfuture_link", "pursued_degree_level", "current_grade",
    "country", "state", "county", "city", "current_school", "minimum_gpa",
    "intended_area_of_study", "requirements", "status", "url",
    "citizenship_status", "activities", "affiliations", "armed_service_branch",
    "armed_service_status", "maximum_age", "minimum_age", "situation"
  ]

  /** The values of that literal, once `dates` is known to be a dict and the requirements cell is computed. */
  function Cells(ms: Dict<Json>, dates: Dict<Json>, requirements: Json): (c: seq<Json>)
    ensures |c| == |RowKeys|
  {
    [ GetOr(ms, "name", Str("")),
      GetOr(ms, "foundation", Str("")),
      GetOr(dates, "opens", Str("")),
      GetOr(dates, "closes", Str("")),
      GetOr(ms, "description", Str("")),
      Str(DollarAmount(ms)),
      GetOr(ms, "amount", Str("")),
      NestedCell(ms, "flags.essay_required"),
      NestedCell(ms, "flags.need_based"),
      NestedCell(ms, "flags.merit_based"),
      GetOr(ms, "application_url", Str("")),
      GetOr(ms, "url", Str("")),
      ListCell(ms, "details.pursued_degree_level"),
      ListCell(ms, "details.current_grade"),
      NestedCell(ms, "details.location.country"),
      NestedCell(ms, "details.location.state"),
      NestedCell(ms, "details.location.county"),
      NestedCell(ms, "details.location.city"),
      NestedCell(ms, "details.current_school"),
      NestedCell(ms, "details.minimum_gpa"),
      ListCell(ms, "details.intended_area_of_study"),
      requirements,
      GetOr(ms, "status", Str("")),
      GetOr(ms, "url", Str("")),
      ListCell(ms, "details.citizenship_status"),
      ListCell(ms, "details.activities"),
      ListCell(ms, "details.affiliations"),
      ListCell(ms, "details.armed_service_branch"),
      ListCell(ms, "details.armed_service_status"),
      NestedCell(ms, "details.maximum_age"),
      NestedCell(ms, "details.minimum_age"),
      ListCell(ms, "details.situation") ]
  }

  /** Pairs each key with its value, as the dict literal does. */
  function Zip(keys: seq<string>, values: seq<Json>): (d: Dict<Json>)
    requires |keys| == |values|
    ensures |d| == |keys|
    ensures forall i :: 0 <= i < |d| ==> d[i] == Item(keys[i], values[i])
  {
    seq(|keys|, i requires 0 <= i < |keys| => Item(keys[i], values[i]))
  }

  function RowOf(ms: Dict<Json>, dates: Dict<Json>, requirements: Json): Dict<Json> {
    Zip(RowKeys, Cells(ms, dates, requirements))
  }

  /**
   * `extract_scholarship_data` on a parsed file (`None`: unreadable): `None`
   * whenever the body raises, which is for a document that is not a dict,
   * a `dates` value that is not a dict, or a requirements list with a
   * non-string element.
   */
  function Extract(doc: Option<Json>): Option<Dict<Json>> {
    if doc.None? || !doc.value.Obj? then None
    else
      var ms := doc.value.members;
      var dates := GetOr(ms, "dates", Obj([]));
      if !dates.Obj? then None
      else
        match RequirementsCell(ms)
        case None => None
        case Some(req) => Some(RowOf(ms, dates.members, req))
  }

  /** The loop of `main` that writes one row per readable file. */
  method CsvRows(docs: seq<Option<Json>>) returns (rows: seq<Dict<Json>>, errors: nat)
    ensures rows == RowsOf(docs, Extract)
    ensures |rows| + errors == |docs|
  {
    rows, errors := Collect(docs, Extract);
  }

  /** That loop for any row extractor: a row for each `Some`, an error for each `None`. */
  method Collect(docs: seq<Option<Json>>, extract: Option<Json> -> Option<Dict<Json>>) returns (rows: seq<Dict<Json>>, errors: nat)
    ensures rows == RowsOf(docs, extract)
    ensures |rows| + errors == |docs|
  {
    rows := [];
    errors := 0;
    for k := 0 to |docs|
      invariant rows == RowsOf(docs[..k], extract)
      invariant |rows| + errors == k
    {
      assert docs[..k + 1][..k] == docs[..k];
      var row := extract(docs[k]);
      if row.Some? {
        rows := rows + [row.value];
      } else {
        errors := errors + 1;
      }
    }
    assert docs[..|docs|] == docs;
  }

  function RowsOf(docs: seq<Option<Json>>, extract: Option<Json> -> Option<Dict<Json>>): (r: seq<Dict<Json>>)
    ensures |r| <= |docs|
    decreases docs
  {
    if docs == [] then []
    else
      var init := RowsOf(docs[..|docs| - 1], extract);
      match extract(docs[|docs| - 1])
      case None => init
      case Some(row) => init + [row]
  }

  // ---------------------------------------------------------------------------
  // Properties of extract_scholarship_data
  // ---------------------------------------------------------------------------

  /** The keys of the extracted row are the header of `main`, in the same order. */
  lemma KeysAreColumns()
    ensures RowKeys == Columns
  {
  }

  /** Every row has exactly the 32 columns of the header, in its order. */
  lemma RowColumns(doc: Option<Json>)
    requires Extract(doc).Some?
    ensures |Extract(doc).value| == |Columns| == 32
    ensures forall i :: 0 <= i < |Columns| ==> Extract(doc).value[i].key == Columns[i]
  {
    KeysAreColumns();
    var ms := doc.value.members;
    var dates := GetOr(ms, "dates", Obj([]));
    var req := RequirementsCell(ms).value;
    assert Extract(doc) == Some(RowOf(ms, dates.members, req));
    RowKeysOf(ms, dates.members, req);
  }

  lemma RowKeysOf(ms: Dict<Json>, dates: Dict<Json>, req: Json)
    ensures |RowOf(ms, dates, req)| == |RowKeys|
    ensures forall i :: 0 <= i < |RowKeys| ==> RowOf(ms, dates, req)[i].key == RowKeys[i]
  {
  }

  /** When a row is given, the file is a dict whose `dates` is missing or a dict. */
  lemma RowNeedsDict(doc: Option<Json>)
    ensures Extract(doc).Some? <==>
      && doc.Some? && doc.value.Obj?
      && GetOr(doc.value.members, "dates", Obj([])).Obj?
      && RequirementsCell(doc.value.members).Some?
  {
  }

  /** A `dates` key that is present but null makes `.get` fail: the file is an error. */
  lemma NullDates(ms: Dict<Json>)
    requires Get(ms, "dates") == Some(Null)
    ensures Extract(Some(Obj(ms))).None?
  {
  }

  /** `s.replace(w, '')` removes `w` itself entirely. */
  lemma RemoveSelf(w: string)
    requires w != []
    ensures RemoveAll(w, w) == []
  {
    assert MatchAt(w, w, 0) by {
      assert w[0..|w|] == w;
    }
    assert Find(w, w) == Some(0);
    assert w[|w|..] == [];
    assert !Contains([], w);
    assert Split(w, w) == [[], []];
    assert Join("", [[], []]) == [] + "" + Join("", [[]]);
  }

  /** A string without `w` is left as it is. */
  lemma RemoveAbsent(s: string, w: string)
    requires w != [] && !Contains(s, w)
    ensures RemoveAll(s, w) == s
  {
  }

  /** An amount of exactly "Award Amount Varies" leaves the dollar column empty. */
  lemma VariesIsEmpty(ms: Dict<Json>)
    requires Get(ms, "amount") == Some(Str(Varies))
    ensures DollarAmount(ms) == ""
  {
    RemoveSelf(Varies);
  }

  /** An amount text without the phrase is only stripped. */
  lemma PlainAmount(ms: Dict<Json>)
    requires !Contains(PyStr(GetOr(ms, "amount", Str(""))), Varies)
    ensures DollarAmount(ms) == Strip(PyStr(GetOr(ms, "amount", Str(""))))
  {
    RemoveAbsent(PyStr(GetOr(ms, "amount", Str(""))), Varies);
  }

  /** A list of strings under `requirements` is joined with "; "; a non-string element is an error. */
  lemma RequirementsList(ms: Dict<Json>, items: seq<Json>)
    requires Get(ms, "requirements") == Some(Arr(items))
    ensures (forall i :: 0 <= i < |items| ==> items[i].Str?) ==>
      RequirementsCell(ms) == Some(Str(Join("; ", seq(|items|, i requires 0 <= i < |items| && items[i].Str? => items[i].s))))
    ensures (exists i :: 0 <= i < |items| && !items[i].Str?) ==> RequirementsCell(ms).None?
  {
  }

  /** A missing `requirements` key gives an empty cell (the `''` default, not the `[]` one). */
  lemma NoRequirements(ms: Dict<Json>)
    requires Get(ms, "requirements").None?
    ensures RequirementsCell(ms) == Some(Str(""))
  {
  }
}
