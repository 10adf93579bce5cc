/**
 * discover_filters.py: every scholarship record is flattened, the values of
 * its filterable fields are collected per field into shared accumulators,
 * and the fields are then graded by how often they occur and how many
 * distinct values they take.
 */
module Filters {
  import opened Wrappers
  import opened Text
  import opened Dicts
  import opened JsonValues
  import opened StringOrder

  // ---------------------------------------------------------------------------
  // parse_comma_separated
  // ---------------------------------------------------------------------------

  /** The stripped pieces that are not blank, in order. */
  function CleanPieces(ps: seq<string>): (r: seq<string>)
    ensures |r| <= |ps|
  {
    if ps == [] then []
    else (if Strip(ps[0]) != [] then [Strip(ps[0])] else []) + CleanPieces(ps[1..])
  }

  /** `parse_comma_separated(value)`. */
  function ParseList(v: Json): seq<string> {
    match v
    case Null => []
    case Arr(items) => seq(|items|, i requires 0 <= i < |items| => Strip(PyStr(items[i])))
    case Str(s) => CleanPieces(Split(s, ","))
    case _ => [Strip(PyStr(v))]
  }

  /** The kept pieces are exactly the stripped non-blank pieces, and each is non-blank and stripped. */
  lemma CleanPiecesSpec(ps: seq<string>)
    ensures forall i :: 0 <= i < |CleanPieces(ps)| ==>
      CleanPieces(ps)[i] != [] && Strip(CleanPieces(ps)[i]) == CleanPieces(ps)[i]
    ensures forall x :: x in CleanPieces(ps) <==> exists j :: 0 <= j < |ps| && Strip(ps[j]) != [] && x == Strip(ps[j])
  {
    CleanPiecesStripped(ps);
    CleanPiecesMembers(ps);
  }

  lemma {:induction false} CleanPiecesStripped(ps: seq<string>)
    ensures forall i :: 0 <= i < |CleanPieces(ps)| ==>
      CleanPieces(ps)[i] != [] && Strip(CleanPieces(ps)[i]) == CleanPieces(ps)[i]
  {
    if ps != [] {
      var rest := CleanPieces(ps[1..]);
      CleanPiecesStripped(ps[1..]);
      StripIdempotent(ps[0]);
      var head := if Strip(ps[0]) != [] then [Strip(ps[0])] else [];
      assert CleanPieces(ps) == head + rest;
    }
  }

  lemma {:induction false} CleanPiecesMembers(ps: seq<string>)
    ensures forall x :: x in CleanPieces(ps) <==> exists j :: 0 <= j < |ps| && Strip(ps[j]) != [] && x == Strip(ps[j])
  {
    if ps != [] {
      var rest := CleanPieces(ps[1..]);
      CleanPiecesMembers(ps[1..]);
      var head := if Strip(ps[0]) != [] then [Strip(ps[0])] else [];
      assert CleanPieces(ps) == head + rest;
      forall x | x in head + rest
        ensures exists j :: 0 <= j < |ps| && Strip(ps[j]) != [] && x == Strip(ps[j])
      {
        if x !in head {
          var j :| 0 <= j < |ps[1..]| && Strip(ps[1..][j]) != [] && x == Strip(ps[1..][j]);
          assert ps[j + 1] == ps[1..][j];
        }
      }
      forall x | exists j :: 0 <= j < |ps| && Strip(ps[j]) != [] && x == Strip(ps[j])
        ensures x in head + rest
      {
        var j :| 0 <= j < |ps| && Strip(ps[j]) != [] && x == Strip(ps[j]);
        if j > 0 {
          assert ps[1..][j - 1] == ps[j];
        }
      }
    }
  }

  /** No piece of a comma split holds a comma, nor does its stripped form. */
  lemma NoCommaPieces(s: string)
    ensures forall j :: 0 <= j < |Split(s, ",")| ==> ',' !in Strip(Split(s, ",")[j])
  {
    SplitPieces(s, ",");
    forall j | 0 <= j < |Split(s, ",")| ensures ',' !in Strip(Split(s, ",")[j]) {
      var p := Split(s, ",")[j];
      if ',' in Strip(p) {
        CharOfStrip(p, ',');
        CharContains(p, ',');
        assert false;
      }
    }
  }

  /** The comma pieces kept from a string: non-blank, stripped, comma-free, and exactly the non-blank stripped pieces. */
  lemma StrPiecesSpec(s: string)
    ensures forall i :: 0 <= i < |CleanPieces(Split(s, ","))| ==>
      CleanPieces(Split(s, ","))[i] != [] && ',' !in CleanPieces(Split(s, ","))[i]
      && Strip(CleanPieces(Split(s, ","))[i]) == CleanPieces(Split(s, ","))[i]
    ensures forall x :: x in CleanPieces(Split(s, ",")) <==>
      exists j :: 0 <= j < |Split(s, ",")| && Strip(Split(s, ",")[j]) != [] && x == Strip(Split(s, ",")[j])
  {
    var ps := Split(s, ",");
    var r := CleanPieces(ps);
    CleanPiecesSpec(ps);
    NoCommaPieces(s);
    forall i | 0 <= i < |r| ensures ',' !in r[i] {
      assert r[i] in r;
      var j :| 0 <= j < |ps| && Strip(ps[j]) != [] && r[i] == Strip(ps[j]);
    }
  }

  /**
   * By input kind: `None` gives no strings; a string gives its stripped,
   * non-blank comma pieces, none empty and none holding a comma; a list gives
   * one stripped string per element; anything else one stripped string.
   */
  lemma ParseListSpec(v: Json)
    ensures v.Null? ==> ParseList(v) == []
    ensures v.Str? ==> forall i :: 0 <= i < |ParseList(v)| ==>
      ParseList(v)[i] != [] && ',' !in ParseList(v)[i] && Strip(ParseList(v)[i]) == ParseList(v)[i]
    ensures v.Str? ==> forall x :: x in ParseList(v) <==>
      exists j :: 0 <= j < |Split(v.s, ",")| && Strip(Split(v.s, ",")[j]) != [] && x == Strip(Split(v.s, ",")[j])
    ensures v.Arr? ==> |ParseList(v)| == |v.items| && forall i :: 0 <= i < |v.items| ==> Strip(ParseList(v)[i]) == ParseList(v)[i]
    ensures !v.Null? && !v.Str? && !v.Arr? ==> |ParseList(v)| == 1 && Strip(ParseList(v)[0]) == ParseList(v)[0]
  {
    match v
    case Str(s) =>
      assert ParseList(v) == CleanPieces(Split(s, ","));
      StrPiecesSpec(s);
    case Arr(items) =>
      forall i | 0 <= i < |items| ensures Strip(ParseList(v)[i]) == ParseList(v)[i] {
        StripIdempotent(PyStr(items[i]));
      }
    case Null =>
    case _ => StripIdempotent(PyStr(v));
  }

  // ---------------------------------------------------------------------------
  // categorize_filter
  // ---------------------------------------------------------------------------

  datatype Category = Excellent | Good | Fair | Poor

  function Label(c: Category): string {
    match c
    case Excellent => "excellent"
    case Good => "good"
    case Fair => "fair"
    case Poor => "poor"
  }

  /**
   * `categorize_filter`, with `presence / total * 100 >= p` written as
   * `100 * presence >= p * total`.  The percentage divides by `total`.
   */
  function Categorize(unique: nat, presence: nat, total: nat): (c: Category)
    requires total > 0
    ensures c == Excellent <==> 100 * presence >= 10 * total && 5 <= unique <= 100
    ensures c == Poor <==> 100 * presence < 5 * total && unique > 50
  {
    if 100 * presence >= 10 * total && 5 <= unique <= 100 then Excellent
    else if 100 * presence >= 5 * total && 5 <= unique <= 200 then Good
    else if 100 * presence >= 5 * total || unique <= 50 then Fair
    else Poor
  }

  /** The grades in order: poor is 0, excellent 3. */
  function Rank(c: Category): nat {
    match c
    case Poor => 0
    case Fair => 1
    case Good => 2
    case Excellent => 3
  }

  /** A field present in more records never gets a worse grade for the same number of values. */
  lemma PresenceMonotone(unique: nat, p1: nat, p2: nat, total: nat)
    requires total > 0 && p1 <= p2
    ensures Rank(Categorize(unique, p1, total)) <= Rank(Categorize(unique, p2, total))
  {
  }

  // ---------------------------------------------------------------------------
  // analyze_scholarship
  // ---------------------------------------------------------------------------

  const SkipKeys: seq<string> := [
    "name", "description", "requirements", "url", "external_url",
    "application_url", "foundation", "status", "amount",
    "dates.opens", "dates.closes"
  ]

  /** Values that are never recorded (besides the empty string). */
  const Placeholders: seq<string> := ["None", "null", "N/A", ""]

  /** `any(key.startswith(prefix) for prefix in filterable_prefixes)`. */
  predicate Filterable(key: string) {
    StartsWith(key, "details") || StartsWith(key, "flags") || StartsWith(key, "location")
  }

  /** The keys whose presence is counted. */
  predicate Counted(key: string) {
    key !in SkipKeys && (Filterable(key) || key == "minimum_gpa" || key == "details.minimum_gpa")
  }

  /** `if v and v not in ['None', 'null', 'N/A', '']`. */
  predicate Kept(v: string) { v != [] && v !in Placeholders }

  /** `isinstance(value, (int, float))`: a Python bool is an int, so it counts as 0 or 1. */
  function NumberOf(v: Json): (r: Option<int>)
    ensures r.Some? <==> v.Int? || v.Bool?
  {
    match v
    case Int(i) => Some(i)
    case Bool(b) => Some(if b then 1 else 0)
    case _ => None
  }

  /** The accumulators `filters`, `field_counts` and `numeric_fields`, as values. */
  datatype Stats = Stats(filters: map<string, set<string>>, counts: map<string, nat>, numeric: map<string, seq<int>>)

  const NoStats: Stats := Stats(map[], map[], map[])

  function ValuesOf(m: map<string, set<string>>, k: string): set<string> {
    if k in m then m[k] else {}
  }

  function CountOf(m: map<string, nat>, k: string): nat {
    if k in m then m[k] else 0
  }

  function NumbersOf(m: map<string, seq<int>>, k: string): seq<int> {
    if k in m then m[k] else []
  }

  /** The inner `for v in values` loop: each kept value joins the set of `key`, created on first use. */
  function AddValues(filters: map<string, set<string>>, key: string, vals: seq<string>): map<string, set<string>>
    decreases |vals|
  {
    if vals == [] then filters
    else
      AddValues(if Kept(vals[0]) then filters[key := ValuesOf(filters, key) + {vals[0]}] else filters, key, vals[1..])
  }

  /** One pass of the loop over the flattened items. */
  function Step(st: Stats, key: string, value: Json): Stats {
    if !Counted(key) then st
    else
      Stats(
        if value.Null? then st.filters else AddValues(st.filters, key, ParseList(value)),
        st.counts[key := CountOf(st.counts, key) + 1],
        match NumberOf(value)
        case Some(n) => st.numeric[key := NumbersOf(st.numeric, key) + [n]]
        case None => st.numeric)
  }

  function AnalyzeItems(st: Stats, items: Dict<Json>): Stats
    decreases |items|
  {
    if items == [] then st else AnalyzeItems(Step(st, items[0].key, items[0].value), items[1..])
  }

  /** The file was read and holds a JSON object; anything else makes the function return `False`. */
  predicate Parsed(doc: Option<Json>) { doc.Some? && doc.value.Obj? }

  function AnalyzeDoc(st: Stats, doc: Option<Json>): Stats {
    if Parsed(doc) then AnalyzeItems(st, Flatten(doc.value.members, "")) else st
  }

  class FilterDiscovery {
    var filters: map<string, set<string>>
    var fieldCounts: map<string, nat>
    var numericFields: map<string, seq<int>>

    function State(): Stats
      reads this
    {
      Stats(filters, fieldCounts, numericFields)
    }

    /** The `defaultdict`s of `main`, empty. */
    constructor ()
      ensures State() == NoStats
    {
      filters := map[];
      fieldCounts := map[];
      numericFields := map[];
    }

    /**
     * `analyze_scholarship` on the decoded file (`None` when it could not be
     * read or decoded).  The GPA list is not part of this model.
     */
    method AnalyzeScholarship(doc: Option<Json>) returns (ok: bool)
      modifies this
      ensures ok <==> Parsed(doc)
      ensures State() == AnalyzeDoc(old(State()), doc)
    {
      if !(doc.Some? && doc.value.Obj?) {
        return false;
      }
      var flat := Flatten(doc.value.members, "");
      ghost var start := State();
      var i := 0;
      while i < |flat|
        invariant 0 <= i <= |flat|
        invariant AnalyzeItems(State(), flat[i..]) == AnalyzeItems(start, flat)
      {
        ghost var before := State();
        ScanField(flat[i].key, flat[i].value);
        ItemsStep(before, flat, i);
        i := i + 1;
      }
      return true;
    }

    /** The body of the loop over the flattened fields: one field counted, its number and its values collected. */
    method ScanField(key: string, value: Json)
      modifies this
      ensures State() == Step(old(State()), key, value)
    {
      if Counted(key) {
        fieldCounts := fieldCounts[key := CountOf(fieldCounts, key) + 1];
        match NumberOf(value) {
          case Some(n) => numericFields := numericFields[key := NumbersOf(numericFields, key) + [n]];
          case None =>
        }
        if !value.Null? {
          var values := ParseList(value);
          AddEach(key, values);
        }
      }
    }

    /** The inner loop over the parsed values of one field. */
    method AddEach(key: string, values: seq<string>)
      modifies this
      ensures filters == AddValues(old(filters), key, values)
      ensures fieldCounts == old(fieldCounts) && numericFields == old(numericFields)
    {
      for j := 0 to |values|
        invariant AddValues(filters, key, values[j..]) == AddValues(old(filters), key, values)
        invariant fieldCounts == old(fieldCounts) && numericFields == old(numericFields)
      {
        var v := values[j];
        ghost var before := filters;
        if v != [] && v !in Placeholders {
          filters := filters[key := ValuesOf(filters, key) + {v}];
        }
        assert values[j..][0] == v && values[j..][1..] == values[j + 1..];
      }
    }
  }

  lemma ItemsStep(st: Stats, items: Dict<Json>, i: nat)
    requires i < |items|
    ensures AnalyzeItems(st, items[i..]) == AnalyzeItems(Step(st, items[i].key, items[i].value), items[i + 1..])
  {
    assert items[i..][0] == items[i] && items[i..][1..] == items[i + 1..];
  }

  // ---------------------------------------------------------------------------
  // Properties of the accumulation
  // ---------------------------------------------------------------------------

  /**
   * The inner loop adds exactly the kept values to the set of `key`, creates
   * that set only when one is kept, and touches no other field.
   */
  lemma {:induction false} AddValuesSpec(filters: map<string, set<string>>, key: string, vals: seq<string>)
    ensures ValuesOf(AddValues(filters, key, vals), key) == ValuesOf(filters, key) + (set v | v in vals && Kept(v))
    ensures key in AddValues(filters, key, vals) <==> key in filters || (exists v :: v in vals && Kept(v))
    ensures forall k :: k != key ==> (k in AddValues(filters, key, vals) <==> k in filters)
    ensures forall k :: k != key && k in filters ==> AddValues(filters, key, vals)[k] == filters[k]
    decreases |vals|
  {
    if vals != [] {
      var next := if Kept(vals[0]) then filters[key := ValuesOf(filters, key) + {vals[0]}] else filters;
      AddValuesSpec(next, key, vals[1..]);
      assert forall v :: v in vals <==> v == vals[0] || v in vals[1..];
      if Kept(vals[0]) {
        assert vals[0] in vals;
      }
      if exists v :: v in vals && Kept(v) {
        var v :| v in vals && Kept(v);
        if v != vals[0] {
          assert v in vals[1..];
        }
      }
      assert (set v | v in vals && Kept(v)) == (if Kept(vals[0]) then {vals[0]} else {}) + (set v | v in vals[1..] && Kept(v));
    } else {
      assert (set v | v in vals && Kept(v)) == {};
    }
  }

  /**
   * What holds of the accumulators at all times: every counted key is one
   * the loop may count and was counted at least once, fields with values or
   * numbers were counted, and no recorded value is blank or a placeholder.
   */
  ghost predicate GoodStats(st: Stats) {
    && st.filters.Keys <= st.counts.Keys
    && st.numeric.Keys <= st.counts.Keys
    && (forall k :: k in st.counts ==> Counted(k) && st.counts[k] >= 1)
    && GoodValues(st.filters)
  }

  /** The recorded values of every field are a non-empty set of kept values. */
  ghost predicate GoodValues(filters: map<string, set<string>>) {
    forall k :: k in filters ==> filters[k] != {} && forall v :: v in filters[k] ==> Kept(v)
  }

  lemma AddValuesGood(filters: map<string, set<string>>, key: string, vals: seq<string>)
    requires GoodValues(filters)
    ensures GoodValues(AddValues(filters, key, vals))
    ensures AddValues(filters, key, vals).Keys <= filters.Keys + {key}
  {
    AddValuesSpec(filters, key, vals);
    var f := AddValues(filters, key, vals);
    if key in f {
      assert f[key] == ValuesOf(filters, key) + (set v | v in vals && Kept(v));
      if key !in filters {
        var v :| v in vals && Kept(v);
        assert v in f[key];
      }
    }
  }

  lemma StepGood(st: Stats, key: string, value: Json)
    requires GoodStats(st)
    ensures GoodStats(Step(st, key, value))
  {
    if Counted(key) && !value.Null? {
      AddValuesGood(st.filters, key, ParseList(value));
    }
  }

  lemma {:induction false} ItemsGood(st: Stats, items: Dict<Json>)
    requires GoodStats(st)
    ensures GoodStats(AnalyzeItems(st, items))
    decreases |items|
  {
    if items != [] {
      StepGood(st, items[0].key, items[0].value);
      ItemsGood(Step(st, items[0].key, items[0].value), items[1..]);
    }
  }

  /** Reading a file never breaks the invariant of the accumulators. */
  lemma DocGood(st: Stats, doc: Option<Json>)
    requires GoodStats(st)
    ensures GoodStats(AnalyzeDoc(st, doc))
  {
    if Parsed(doc) {
      ItemsGood(st, Flatten(doc.value.members, ""));
    }
  }

  /** The accumulators only grow: counts go up, sets gain members, number lists gain a tail. */
  ghost predicate Grows(a: Stats, b: Stats) {
    && (forall k :: k in a.counts ==> k in b.counts && a.counts[k] <= b.counts[k])
    && (forall k :: k in a.filters ==> k in b.filters && a.filters[k] <= b.filters[k])
    && (forall k :: k in a.numeric ==> k in b.numeric && a.numeric[k] <= b.numeric[k])
  }

  lemma StepGrows(st: Stats, key: string, value: Json)
    ensures Grows(st, Step(st, key, value))
  {
    if Counted(key) && !value.Null? {
      AddValuesSpec(st.filters, key, ParseList(value));
    }
  }

  lemma {:induction false} ItemsGrow(st: Stats, items: Dict<Json>)
    ensures Grows(st, AnalyzeItems(st, items))
    decreases |items|
  {
    if items != [] {
      var next := Step(st, items[0].key, items[0].value);
      StepGrows(st, items[0].key, items[0].value);
      ItemsGrow(next, items[1..]);
      GrowsTrans(st, next, AnalyzeItems(next, items[1..]));
    }
  }

  lemma GrowsTrans(a: Stats, b: Stats, c: Stats)
    requires Grows(a, b) && Grows(b, c)
    ensures Grows(a, c)
  {
  }

  /** A file either leaves the accumulators alone (it failed to parse) or only makes them grow. */
  lemma DocGrows(st: Stats, doc: Option<Json>)
    ensures Grows(st, AnalyzeDoc(st, doc))
    ensures !Parsed(doc) ==> AnalyzeDoc(st, doc) == st
  {
    if Parsed(doc) {
      ItemsGrow(st, Flatten(doc.value.members, ""));
    }
  }

  /** Over items with distinct keys, each counted key present goes up by exactly one and every other count stays. */
  lemma {:induction false} ItemsCount(st: Stats, items: Dict<Json>, k: string)
    requires DistinctKeys(items)
    ensures CountOf(AnalyzeItems(st, items).counts, k) == CountOf(st.counts, k) + (if k in Keys(items) && Counted(k) then 1 else 0)
    decreases |items|
  {
    if items != [] {
      var rest := items[1..];
      assert DistinctKeys(rest) by {
        forall i, j | 0 <= i < j < |rest| ensures rest[i].key != rest[j].key {
          assert rest[i] == items[i + 1] && rest[j] == items[j + 1];
        }
      }
      ItemsCount(Step(st, items[0].key, items[0].value), rest, k);
      assert Keys(items) == {items[0].key} + Keys(rest) by {
        forall x | x in Keys(items) ensures x in {items[0].key} + Keys(rest) {
          var i :| 0 <= i < |items| && items[i].key == x;
          if i > 0 { assert rest[i - 1].key == x; }
        }
        forall x | x in Keys(rest) ensures x in Keys(items) {
          var i :| 0 <= i < |rest| && rest[i].key == x;
          assert items[i + 1].key == x;
        }
      }
      assert items[0].key !in Keys(rest) by {
        forall i | 0 <= i < |rest| ensures rest[i].key != items[0].key {
          assert rest[i] == items[i + 1];
        }
      }
    }
  }

  /** `field_counts[key]` goes up by one for each counted key of the flattened record, and only for those. */
  lemma DocCount(st: Stats, doc: Option<Json>, k: string)
    requires Parsed(doc)
    ensures CountOf(AnalyzeDoc(st, doc).counts, k) ==
      CountOf(st.counts, k) + (if k in Keys(Flatten(doc.value.members, "")) && Counted(k) then 1 else 0)
  {
    ItemsCount(st, Flatten(doc.value.members, ""), k);
  }

  /** A key of the skip list is never counted, whatever else it looks like. */
  lemma SkipNeverCounted(k: string)
    requires k in SkipKeys
    ensures !Counted(k)
  {
  }

  // ---------------------------------------------------------------------------
  // main: the loop over the files, the buckets and the saved report
  // ---------------------------------------------------------------------------

  function AnalyzeDocs(st: Stats, docs: seq<Option<Json>>): Stats
    decreases |docs|
  {
    if docs == [] then st else AnalyzeDocs(AnalyzeDoc(st, docs[0]), docs[1..])
  }

  /** The number of files `analyze_scholarship` reports as failed. */
  function Failures(docs: seq<Option<Json>>): nat
    decreases |docs|
  {
    if docs == [] then 0 else (if Parsed(docs[0]) then 0 else 1) + Failures(docs[1..])
  }

  lemma {:induction false} DocsGood(st: Stats, docs: seq<Option<Json>>)
    requires GoodStats(st)
    ensures GoodStats(AnalyzeDocs(st, docs))
    decreases |docs|
  {
    if docs != [] {
      DocGood(st, docs[0]);
      DocsGood(AnalyzeDoc(st, docs[0]), docs[1..]);
    }
  }

  /** `filter_info` without the floating-point percentage. */
  datatype FilterInfo = FilterInfo(field: string, presence: nat, unique: nat, category: Category)

  function InfoOf(st: Stats, field: string, total: nat): (r: FilterInfo)
    requires total > 0
    ensures r.field == field
  {
    var unique := |ValuesOf(st.filters, field)|;
    var presence := CountOf(st.counts, field);
    FilterInfo(field, presence, unique, Categorize(unique, presence, total))
  }

  /** The infos of `fields` whose grade is `c`, in order. */
  function Bucket(fields: seq<string>, st: Stats, total: nat, c: Category): (r: seq<FilterInfo>)
    requires total > 0
    ensures forall i :: 0 <= i < |r| ==> r[i].category == c
    decreases |fields|
  {
    if fields == [] then []
    else
      var info := InfoOf(st, fields[0], total);
      (if info.category == c then [info] else []) + Bucket(fields[1..], st, total, c)
  }

  /** The loop that appends each field's info to the list of its grade. */
  method Buckets(fields: seq<string>, st: Stats, total: nat)
      returns (excellent: seq<FilterInfo>, good: seq<FilterInfo>, fair: seq<FilterInfo>, poor: seq<FilterInfo>)
    requires total > 0
    ensures excellent == Bucket(fields, st, total, Excellent) && good == Bucket(fields, st, total, Good)
    ensures fair == Bucket(fields, st, total, Fair) && poor == Bucket(fields, st, total, Poor)
  {
    excellent, good, fair, poor := [], [], [], [];
    for i := 0 to |fields|
      invariant excellent + Bucket(fields[i..], st, total, Excellent) == Bucket(fields, st, total, Excellent)
      invariant good + Bucket(fields[i..], st, total, Good) == Bucket(fields, st, total, Good)
      invariant fair + Bucket(fields[i..], st, total, Fair) == Bucket(fields, st, total, Fair)
      invariant poor + Bucket(fields[i..], st, total, Poor) == Bucket(fields, st, total, Poor)
    {
      var info := InfoOf(st, fields[i], total);
      BucketStep(excellent, fields, st, total, i, Excellent);
      BucketStep(good, fields, st, total, i, Good);
      BucketStep(fair, fields, st, total, i, Fair);
      BucketStep(poor, fields, st, total, i, Poor);
      if info.category == Excellent {
        excellent := excellent + [info];
      } else if info.category == Good {
        good := good + [info];
      } else if info.category == Fair {
        fair := fair + [info];
      } else {
        poor := poor + [info];
      }
    }
  }

  lemma BucketStep(acc: seq<FilterInfo>, fields: seq<string>, st: Stats, total: nat, i: nat, c: Category)
    requires total > 0 && i < |fields|
    ensures var info := InfoOf(st, fields[i], total);
      (if info.category == c then acc + [info] else acc) + Bucket(fields[i + 1..], st, total, c)
        == acc + Bucket(fields[i..], st, total, c)
  {
    assert fields[i..][0] == fields[i] && fields[i..][1..] == fields[i + 1..];
  }

  /** Every field lands in exactly one of the four lists, so their lengths add up to the number of fields. */
  lemma {:induction false} BucketsPartition(fields: seq<string>, st: Stats, total: nat)
    requires total > 0
    ensures |Bucket(fields, st, total, Excellent)| + |Bucket(fields, st, total, Good)|
      + |Bucket(fields, st, total, Fair)| + |Bucket(fields, st, total, Poor)| == |fields|
    ensures forall f, c :: f in fields ==>
      (InfoOf(st, f, total) in Bucket(fields, st, total, c) <==> c == InfoOf(st, f, total).category)
    decreases |fields|
  {
    if fields != [] {
      BucketsPartition(fields[1..], st, total);
      forall f, c | f in fields
        ensures InfoOf(st, f, total) in Bucket(fields, st, total, c) <==> c == InfoOf(st, f, total).category
      {
        BucketHas(fields, st, total, c, f);
      }
    }
  }

  lemma {:induction false} BucketHas(fields: seq<string>, st: Stats, total: nat, c: Category, f: string)
    requires total > 0 && f in fields
    ensures InfoOf(st, f, total) in Bucket(fields, st, total, c) <==> c == InfoOf(st, f, total).category
    decreases |fields|
  {
    var info := InfoOf(st, fields[0], total);
    if fields[0] == f {
      if c != info.category {
        BucketFields(fields[1..], st, total, c);
      }
    } else {
      BucketHas(fields[1..], st, total, c, f);
    }
  }

  lemma {:induction false} BucketFields(fields: seq<string>, st: Stats, total: nat, c: Category)
    requires total > 0
    ensures forall x :: x in Bucket(fields, st, total, c) ==> x == InfoOf(st, x.field, total)
    decreases |fields|
  {
    if fields != [] {
      BucketFields(fields[1..], st, total, c);
    }
  }

  /** The counted fields whose grade is `c`. */
  ghost function Graded(st: Stats, total: nat, c: Category): set<string>
    requires total > 0
  {
    set f | f in st.counts.Keys && InfoOf(st, f, total).category == c
  }

  /** Over the sorted counted fields, each grade list is as long as the set of fields of that grade. */
  lemma BucketsGraded(fields: seq<string>, st: Stats, total: nat)
    requires total > 0 && Distinct(fields)
    requires forall x :: x in fields <==> x in st.counts.Keys
    ensures |Bucket(fields, st, total, Excellent)| == |Graded(st, total, Excellent)|
    ensures |Bucket(fields, st, total, Good)| == |Graded(st, total, Good)|
    ensures |Bucket(fields, st, total, Fair)| == |Graded(st, total, Fair)|
    ensures |Bucket(fields, st, total, Poor)| == |Graded(st, total, Poor)|
  {
    forall c | true
      ensures |Bucket(fields, st, total, c)| == |Graded(st, total, c)|
    {
      BucketCount(fields, st, total, c);
      assert GradedIn(fields, st, total, c) == Graded(st, total, c);
    }
  }

  /** The fields of a list whose grade is `c`. */
  ghost function GradedIn(fields: seq<string>, st: Stats, total: nat, c: Category): (r: set<string>)
    requires total > 0
    ensures forall f :: f in r <==> f in fields && InfoOf(st, f, total).category == c
    decreases |fields|
  {
    if fields == [] then {}
    else (if InfoOf(st, fields[0], total).category == c then {fields[0]} else {}) + GradedIn(fields[1..], st, total, c)
  }

  /** A list of distinct fields gives a grade list as long as the set of its fields of that grade. */
  lemma {:induction false} BucketCount(fields: seq<string>, st: Stats, total: nat, c: Category)
    requires total > 0 && Distinct(fields)
    ensures |Bucket(fields, st, total, c)| == |GradedIn(fields, st, total, c)|
    decreases |fields|
  {
    if fields != [] {
      DistinctCons(fields);
      BucketCount(fields[1..], st, total, c);
      assert fields[0] !in GradedIn(fields[1..], st, total, c);
    }
  }

  lemma DistinctCons(fields: seq<string>)
    requires fields != [] && Distinct(fields)
    ensures Distinct(fields[1..]) && fields[0] !in fields[1..]
  {
    var rest := fields[1..];
    forall i, j | 0 <= i < j < |rest| ensures rest[i] != rest[j] {
      assert rest[i] == fields[i + 1] && rest[j] == fields[j + 1];
    }
    forall i | 0 <= i < |rest| ensures rest[i] != fields[0] {
      assert rest[i] == fields[i + 1];
    }
  }

  /** One entry of `report["filters"]`. */
  datatype FilterEntry = FilterEntry(
    field: string, presence: nat, uniqueCount: nat, category: Category,
    uniqueValues: seq<string>, totalUnique: nat)

  /** The report entry of one field: at most 100 values shown, the smallest, and the full count kept. */
  method MakeEntry(field: string, values: set<string>, presence: nat, total: nat) returns (e: FilterEntry)
    requires total > 0
    ensures e.field == field && e.presence == presence
    ensures e.uniqueCount == |values| && e.totalUnique == |values|
    ensures e.category == Categorize(|values|, presence, total)
    ensures |e.uniqueValues| == if |values| > 100 then 100 else |values|
    ensures Sorted(e.uniqueValues) && Distinct(e.uniqueValues)
    ensures forall x :: x in e.uniqueValues ==> x in values
    ensures forall x, y :: x in values && x !in e.uniqueValues && y in e.uniqueValues ==> Leq(y, x)
  {
    var sorted := SortedStrings(values);
    var shown := if |sorted| > 100 then sorted[..100] else sorted;
    forall x, y | x in values && x !in shown && y in shown ensures Leq(y, x) {
      var i :| 0 <= i < |sorted| && sorted[i] == x;
      var j :| 0 <= j < |shown| && shown[j] == y;
      assert sorted[j] == y;
      assert j < i;
    }
    e := FilterEntry(field, presence, |sorted|, Categorize(|sorted|, presence, total), shown, |sorted|);
  }

  datatype Summary = Summary(totalScholarships: nat, totalFilterFields: nat, excellent: nat, good: nat, fair: nat, poor: nat)

  datatype Report = Report(summary: Summary, filters: seq<FilterEntry>)

  /** The loop of `main` over the files; `errors` counts the ones that failed. */
  method AnalyzeAll(acc: FilterDiscovery, docs: seq<Option<Json>>) returns (errors: nat)
    modifies acc
    ensures acc.State() == AnalyzeDocs(old(acc.State()), docs)
    ensures errors == Failures(docs)
  {
    ghost var start := acc.State();
    errors := 0;
    for i := 0 to |docs|
      invariant AnalyzeDocs(acc.State(), docs[i..]) == AnalyzeDocs(start, docs)
      invariant errors + Failures(docs[i..]) == Failures(docs)
    {
      var ok := acc.AnalyzeScholarship(docs[i]);
      if !ok {
        errors := errors + 1;
      }
      assert docs[i..][0] == docs[i] && docs[i..][1..] == docs[i + 1..];
    }
    assert docs[|docs|..] == [];
  }

  /** What a report entry says of its field, given the accumulators and the number of files. */
  ghost predicate EntryOf(e: FilterEntry, st: Stats, total: nat)
    requires total > 0
  {
    && e.field in st.filters
    && e.presence == CountOf(st.counts, e.field) && e.presence >= 1
    && e.totalUnique == |st.filters[e.field]| && e.uniqueCount == e.totalUnique
    && e.category == Categorize(e.totalUnique, e.presence, total)
    && |e.uniqueValues| == (if e.totalUnique > 100 then 100 else e.totalUnique)
    && Sorted(e.uniqueValues) && Distinct(e.uniqueValues)
    && (forall x :: x in e.uniqueValues ==> x in st.filters[e.field])
    && (forall x, y :: x in st.filters[e.field] && x !in e.uniqueValues && y in e.uniqueValues ==> Leq(y, x))
  }

  /** The loop over `sorted(filters.keys())` that fills `report["filters"]`. */
  method Entries(st: Stats, total: nat, keys: seq<string>) returns (entries: seq<FilterEntry>)
    requires total > 0 && GoodStats(st)
    requires forall k :: k in keys ==> k in st.filters
    ensures |entries| == |keys|
    ensures forall j :: 0 <= j < |keys| ==> entries[j].field == keys[j] && EntryOf(entries[j], st, total)
  {
    entries := [];
    for i := 0 to |keys|
      invariant |entries| == i
      invariant forall j :: 0 <= j < i ==> entries[j].field == keys[j] && EntryOf(entries[j], st, total)
    {
      var field := keys[i];
      var e := MakeEntry(field, st.filters[field], CountOf(st.counts, field), total);
      entries := entries + [e];
    }
  }

  /**
   * `main` on the decoded files: nothing when there are none; otherwise the
   * summary and one entry per field with collected values, in field order.
   */
  method Discover(docs: seq<Option<Json>>) returns (report: Option<Report>, errors: nat)
    ensures report.None? <==> docs == []
    ensures docs != [] ==> errors == Failures(docs)
    ensures report.Some? ==>
      var st := AnalyzeDocs(NoStats, docs);
      var s := report.value.summary;
      && s.totalScholarships == |docs|
      && s.totalFilterFields == |st.filters|
      && s.excellent + s.good + s.fair + s.poor == |st.counts|
      && s.excellent == |Graded(st, |docs|, Excellent)| && s.good == |Graded(st, |docs|, Good)|
      && s.fair == |Graded(st, |docs|, Fair)| && s.poor == |Graded(st, |docs|, Poor)|
    ensures report.Some? ==>
      var st := AnalyzeDocs(NoStats, docs);
      var es := report.value.filters;
      && (forall e :: e in es ==> EntryOf(e, st, |docs|))
      && (forall k :: k in st.filters <==> exists i :: 0 <= i < |es| && es[i].field == k)
      && (forall i, j :: 0 <= i < j < |es| ==> Leq(es[i].field, es[j].field) && es[i].field != es[j].field)
  {
    if docs == [] {
      return None, 0;
    }
    var acc := new FilterDiscovery();
    errors := AnalyzeAll(acc, docs);
    var st := acc.State();
    DocsGood(NoStats, docs);
    var total := |docs|;
    var fields := SortedStrings(st.counts.Keys);
    var excellent, good, fair, poor := Buckets(fields, st, total);
    BucketsPartition(fields, st, total);
    BucketsGraded(fields, st, total);
    var keys := SortedStrings(st.filters.Keys);
    var entries := Entries(st, total, keys);
    var summary := Summary(total, |st.filters|, |excellent|, |good|, |fair|, |poor|);
    assert |fields| == |st.counts|;
    report := Some(Report(summary, entries));
  }
}
