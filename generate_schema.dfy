/**
 * generate_schema.py: the JSON type of every path that occurs in a corpus of
 * scholarship documents, collected into a map from path to a set of type
 * names, and the Supabase column description and summary counts derived
 * from that map.
 */
module Schema {
  import opened Wrappers
  import opened Text
  import opened Dicts
  import opened JsonValues
  import opened StringOrder

  // ---------------------------------------------------------------------------
  // get_json_type
  // ---------------------------------------------------------------------------

  /**
   * The names `get_json_type` can return.  `NumberK` stands for Python's
   * floats, which the document model has no value for; "unknown" cannot
   * arise from a parsed JSON document.
   */
  datatype JsonKind = NullK | BooleanK | IntegerK | NumberK | StringK | ArrayK | ObjectK

  function Name(k: JsonKind): string {
    match k
    case NullK => "null"
    case BooleanK => "boolean"
    case IntegerK => "integer"
    case NumberK => "number"
    case StringK => "string"
    case ArrayK => "array"
    case ObjectK => "object"
  }

  /** `get_json_type`: the `bool` test comes before the `int` test. */
  function KindOf(v: Json): (k: JsonKind)
    ensures k == BooleanK <==> v.Bool?
    ensures k == IntegerK <==> v.Int?
    ensures k == NullK <==> v.Null?
    ensures k == StringK <==> v.Str?
    ensures k == ArrayK <==> v.Arr?
    ensures k == ObjectK <==> v.Obj?
    ensures k != NumberK
  {
    match v
    case Null => NullK
    case Bool(_) => BooleanK
    case Int(_) => IntegerK
    case Str(_) => StringK
    case Arr(_) => ArrayK
    case Obj(_) => ObjectK
  }

  /** Distinct kinds have distinct names, so the schema's sets of names and of kinds correspond. */
  lemma NameInjective(a: JsonKind, b: JsonKind)
    requires Name(a) == Name(b)
    ensures a == b
  {
  }

  // ---------------------------------------------------------------------------
  // The schema and analyze_value
  // ---------------------------------------------------------------------------

  /** The `schema` dict: path to the set of types seen there. */
  type SchemaMap = map<string, set<JsonKind>>

  /** `schema.get(path, set())`. */
  function TypesOf(s: SchemaMap, path: string): set<JsonKind> {
    if path in s then s[path] else {}
  }

  /** `schema.setdefault(path, set()).update(ks)`. */
  function AddKinds(s: SchemaMap, path: string, ks: set<JsonKind>): (r: SchemaMap)
    ensures r.Keys == s.Keys + {path}
  {
    s[path := TypesOf(s, path) + ks]
  }

  /** `f"{path}[]" if path else "[]"`, which is `path + "[]"` in both cases. */
  function ItemPath(path: string): string {
    path + "[]"
  }

  /** `value[:5]`. */
  function Sample(items: seq<Json>): (r: seq<Json>)
    ensures |r| <= 5 && |r| <= |items| && r == items[..|r|]
    ensures |items| <= 5 ==> r == items
  {
    if |items| > 5 then items[..5] else items
  }

  /** The `element_types` collected over a list. */
  function KindsOf(items: seq<Json>): set<JsonKind>
    decreases items
  {
    if items == [] then {} else KindsOf(items[..|items| - 1]) + {KindOf(items[|items| - 1])}
  }

  /**
   * `analyze_value(v, path, schema)` as the schema it leaves: the type of
   * `v` at `path`; then the members of a non-empty object at their child
   * paths; or, for a non-empty list, the members of its first five
   * elements' non-empty objects under `path[]`, followed by those elements'
   * types at `path[]`.  An empty list or object adds only its own type.
   */
  function Analyze(s: SchemaMap, v: Json, path: string): SchemaMap
    decreases Size(v), 0
  {
    var s1 := AddKinds(s, path, {KindOf(v)});
    match v
    case Obj(ms) =>
      if ms == [] then s1 else Members(s1, ms, path, 0)
    case Arr(items) =>
      if items == [] then s1
      else
        PrefixSize(items, |Sample(items)|);
        var sample := Sample(items);
        AddKinds(Elements(s1, sample, path, 0), ItemPath(path), KindsOf(sample))
    case _ => s1
  }

  /** The loop over the members from the `i`-th on, each at `ChildKey(path, key)`. */
  function Members(s: SchemaMap, ms: Dict<Json>, path: string, i: nat): SchemaMap
    decreases MembersSize(ms), 1, |ms| - i
  {
    if i >= |ms| then s
    else
      MemberSize(ms, i);
      Members(Analyze(s, ms[i].value, ChildKey(path, ms[i].key)), ms, path, i + 1)
  }

  /** The loop over the sampled elements from the `i`-th on: a non-empty object's members go under `path[]`. */
  function Elements(s: SchemaMap, items: seq<Json>, path: string, i: nat): SchemaMap
    decreases ItemsSize(items), 1, |items| - i
  {
    if i >= |items| then s
    else
      var item := items[i];
      ItemSize(items, i);
      var s' := if item.Obj? && item.members != [] then Members(s, item.members, ItemPath(path), 0) else s;
      Elements(s', items, path, i + 1)
  }

  /** `analyze_json_file` once the file is parsed: a dict's members at their own keys, anything else at "". */
  function FileSchema(s: SchemaMap, doc: Option<Json>): SchemaMap {
    match doc
    case None => s
    case Some(Obj(ms)) => Members(s, ms, "", 0)
    case Some(v) => Analyze(s, v, "")
  }

  /** The file loop of `main`. */
  function FilesSchema(s: SchemaMap, docs: seq<Option<Json>>): SchemaMap
    decreases docs
  {
    if docs == [] then s else FilesSchema(FileSchema(s, docs[0]), docs[1..])
  }

  function Errors(docs: seq<Option<Json>>): nat
    decreases docs
  {
    if docs == [] then 0 else (if docs[0].None? then 1 else 0) + Errors(docs[1..])
  }

  /** The `schema` dict that `main` threads through the analysis, updated in place. */
  class SchemaBuilder {
    var schema: SchemaMap

    /** `defaultdict(set)`. */
    constructor()
      ensures schema == map[]
    {
      schema := map[];
    }

    /** `analyze_value(v, path, schema)`. */
    method AnalyzeValue(v: Json, path: string)
      modifies this
      ensures schema == Analyze(old(schema), v, path)
      decreases Size(v), 2
    {
      schema := AddKinds(schema, path, {KindOf(v)});
      match v {
        case Obj(ms) =>
          if ms != [] {
            AnalyzeMembers(ms, path);
          }
        case Arr(items) =>
          if items != [] {
            var sample := Sample(items);
            PrefixSize(items, |sample|);
            var kinds := AnalyzeElements(sample, path);
            schema := AddKinds(schema, ItemPath(path), kinds);
            AnalyzeList(old(schema), items, path);
          }
        case _ =>
      }
    }

    /** The loop of `analyze_value` over a list's sampled elements, returning their `element_types`. */
    method AnalyzeElements(sample: seq<Json>, path: string) returns (kinds: set<JsonKind>)
      modifies this
      ensures kinds == KindsOf(sample)
      ensures schema == Elements(old(schema), sample, path, 0)
      decreases ItemsSize(sample), 1
    {
      kinds := {};
      var i := 0;
      while i < |sample|
        invariant 0 <= i <= |sample|
        invariant kinds == KindsOf(sample[..i])
        invariant Elements(schema, sample, path, i) == Elements(old(schema), sample, path, 0)
      {
        var item := sample[i];
        KindsNext(sample, i);
        kinds := kinds + {KindOf(item)};
        ElementsNext(schema, sample, path, i);
        if item.Obj? && item.members != [] {
          ItemSize(sample, i);
          AnalyzeMembers(item.members, ItemPath(path));
        }
        i := i + 1;
      }
      assert sample[..i] == sample;
    }

    /** `for key, val in value.items(): analyze_value(val, ChildKey(path, key), schema)`. */
    method AnalyzeMembers(ms: Dict<Json>, path: string)
      modifies this
      ensures schema == Members(old(schema), ms, path, 0)
      decreases MembersSize(ms), 3
    {
      var i := 0;
      while i < |ms|
        invariant 0 <= i <= |ms|
        invariant Members(schema, ms, path, i) == Members(old(schema), ms, path, 0)
      {
        MemberSize(ms, i);
        AnalyzeValue(ms[i].value, ChildKey(path, ms[i].key));
        i := i + 1;
      }
    }

    /** `analyze_json_file`; `None` is a file that could not be read or parsed. */
    method AnalyzeFile(doc: Option<Json>) returns (ok: bool)
      modifies this
      ensures ok <==> doc.Some?
      ensures schema == FileSchema(old(schema), doc)
    {
      if doc.None? {
        return false;
      }
      match doc.value {
        case Obj(ms) => AnalyzeMembers(ms, "");
        case _ => AnalyzeValue(doc.value, "");
      }
      return true;
    }
  }

  lemma KindsNext(items: seq<Json>, i: nat)
    requires i < |items|
    ensures KindsOf(items[..i + 1]) == KindsOf(items[..i]) + {KindOf(items[i])}
  {
    assert items[..i + 1][..i] == items[..i];
  }

  /** One step of the element loop: a non-empty object's members are analysed under `path[]`. */
  lemma ElementsNext(s: SchemaMap, items: seq<Json>, path: string, i: nat)
    requires i < |items|
    ensures Elements(s, items, path, i)
         == Elements(if items[i].Obj? && items[i].members != [] then Members(s, items[i].members, ItemPath(path), 0) else s,
                     items, path, i + 1)
  {
  }

  /** `Analyze` of a non-empty list, unfolded. */
  lemma AnalyzeList(s: SchemaMap, items: seq<Json>, path: string)
    requires items != []
    ensures Analyze(s, Arr(items), path)
         == AddKinds(Elements(AddKinds(s, path, {ArrayK}), Sample(items), path, 0), ItemPath(path), KindsOf(Sample(items)))
  {
  }

  /** The analysis part of `main`: every file into one schema, counting the failures. */
  method AnalyzeFiles(docs: seq<Option<Json>>) returns (schema: SchemaMap, errors: nat)
    ensures schema == FilesSchema(map[], docs)
    ensures errors == Errors(docs) && errors <= |docs|
  {
    var builder := new SchemaBuilder();
    errors := 0;
    for k := 0 to |docs|
      invariant FilesSchema(builder.schema, docs[k..]) == FilesSchema(map[], docs)
      invariant errors + Errors(docs[k..]) == Errors(docs)
      invariant errors <= k
    {
      assert docs[k..][1..] == docs[k + 1..];
      var ok := builder.AnalyzeFile(docs[k]);
      if !ok {
        errors := errors + 1;
      }
    }
    schema := builder.schema;
  }

  // ---------------------------------------------------------------------------
  // Properties of the analysis
  // ---------------------------------------------------------------------------

  /** Path-wise union of two schemas. */
  function Merge(a: SchemaMap, b: SchemaMap): (m: SchemaMap)
    ensures m.Keys == a.Keys + b.Keys
  {
    map k | k in a.Keys + b.Keys :: TypesOf(a, k) + TypesOf(b, k)
  }

  /** Every path of `a` is in `b` with at least its types. */
  predicate Below(a: SchemaMap, b: SchemaMap) {
    forall k :: k in a ==> k in b && a[k] <= b[k]
  }

  lemma MergeTypes(a: SchemaMap, b: SchemaMap, k: string)
    ensures TypesOf(Merge(a, b), k) == TypesOf(a, k) + TypesOf(b, k)
  {
  }

  lemma MergeEmpty(a: SchemaMap)
    ensures Merge(a, map[]) == a
  {
    var m := Merge(a, map[]);
    forall k | k in m ensures m[k] == a[k] {
      assert TypesOf(m, k) == m[k] && TypesOf(a, k) == a[k];
    }
  }

  lemma MergeSelf(a: SchemaMap)
    ensures Merge(a, a) == a
  {
    var m := Merge(a, a);
    forall k | k in m ensures m[k] == a[k] {
      assert TypesOf(m, k) == m[k] && TypesOf(a, k) == a[k];
    }
  }

  lemma MergeBelow(a: SchemaMap, b: SchemaMap)
    ensures Below(a, Merge(a, b)) && Below(b, Merge(a, b))
  {
    forall k | k in a ensures a[k] <= Merge(a, b)[k] {
      assert TypesOf(a, k) == a[k];
      assert TypesOf(Merge(a, b), k) == Merge(a, b)[k];
    }
    forall k | k in b ensures b[k] <= Merge(a, b)[k] {
      assert TypesOf(b, k) == b[k];
      assert TypesOf(Merge(a, b), k) == Merge(a, b)[k];
    }
  }

  lemma MergeAssoc(a: SchemaMap, b: SchemaMap, c: SchemaMap)
    ensures Merge(Merge(a, b), c) == Merge(a, Merge(b, c))
  {
    var l := Merge(Merge(a, b), c);
    var r := Merge(a, Merge(b, c));
    forall k | k in l ensures l[k] == r[k] {
      MergeAssocAt(a, b, c, k);
    }
  }

  lemma MergeAssocAt(a: SchemaMap, b: SchemaMap, c: SchemaMap, k: string)
    ensures TypesOf(Merge(Merge(a, b), c), k) == TypesOf(Merge(a, Merge(b, c)), k)
  {
    MergeTypes(Merge(a, b), c, k);
    MergeTypes(a, b, k);
    MergeTypes(a, Merge(b, c), k);
    MergeTypes(b, c, k);
  }

  lemma MergeComm(a: SchemaMap, b: SchemaMap)
    ensures Merge(a, b) == Merge(b, a)
  {
    var l := Merge(a, b);
    var r := Merge(b, a);
    forall k | k in l ensures l[k] == r[k] {
      MergeTypes(a, b, k);
      MergeTypes(b, a, k);
    }
  }

  lemma AddMerge(a: SchemaMap, t: SchemaMap, path: string, ks: set<JsonKind>)
    ensures AddKinds(Merge(a, t), path, ks) == Merge(a, AddKinds(t, path, ks))
  {
    var l := AddKinds(Merge(a, t), path, ks);
    var r := Merge(a, AddKinds(t, path, ks));
    forall k | k in l ensures l[k] == r[k] {
      AddMergeAt(a, t, path, ks, k);
    }
  }

  lemma AddMergeAt(a: SchemaMap, t: SchemaMap, path: string, ks: set<JsonKind>, k: string)
    ensures TypesOf(AddKinds(Merge(a, t), path, ks), k) == TypesOf(Merge(a, AddKinds(t, path, ks)), k)
  {
    MergeTypes(a, t, k);
    MergeTypes(a, AddKinds(t, path, ks), k);
  }

  /** Analysing into `Merge(a, t)` is analysing into `t` and adding `a`: the analysis only ever adds. */
  lemma {:induction false} AnalyzeMerge(a: SchemaMap, t: SchemaMap, v: Json, path: string)
    ensures Analyze(Merge(a, t), v, path) == Merge(a, Analyze(t, v, path))
    decreases Size(v), 0
  {
    AddMerge(a, t, path, {KindOf(v)});
    var t1 := AddKinds(t, path, {KindOf(v)});
    match v
    case Obj(ms) =>
      if ms != [] {
        MembersMerge(a, t1, ms, path, 0);
      }
    case Arr(items) =>
      if items != [] {
        var sample := Sample(items);
        PrefixSize(items, |sample|);
        ElementsMerge(a, t1, sample, path, 0);
        AddMerge(a, Elements(t1, sample, path, 0), ItemPath(path), KindsOf(sample));
      }
    case _ =>
  }

  lemma {:induction false} MembersMerge(a: SchemaMap, t: SchemaMap, ms: Dict<Json>, path: string, i: nat)
    ensures Members(Merge(a, t), ms, path, i) == Merge(a, Members(t, ms, path, i))
    decreases MembersSize(ms), 1, |ms| - i
  {
    if i < |ms| {
      MemberSize(ms, i);
      var p := ChildKey(path, ms[i].key);
      AnalyzeMerge(a, t, ms[i].value, p);
      MembersMerge(a, Analyze(t, ms[i].value, p), ms, path, i + 1);
    }
  }

  lemma {:induction false} ElementsMerge(a: SchemaMap, t: SchemaMap, items: seq<Json>, path: string, i: nat)
    ensures Elements(Merge(a, t), items, path, i) == Merge(a, Elements(t, items, path, i))
    decreases ItemsSize(items), 1, |items| - i
  {
    if i < |items| {
      var item := items[i];
      ItemSize(items, i);
      if item.Obj? && item.members != [] {
        MembersMerge(a, t, item.members, ItemPath(path), 0);
        ElementsMerge(a, Members(t, item.members, ItemPath(path), 0), items, path, i + 1);
      } else {
        ElementsMerge(a, t, items, path, i + 1);
      }
    }
  }

  /** The schema a value contributes on its own. */
  function Contribution(v: Json, path: string): SchemaMap {
    Analyze(map[], v, path)
  }

  /** The analysis adds the value's own contribution to the schema, whatever was there before. */
  lemma AnalyzeAdds(s: SchemaMap, v: Json, path: string)
    ensures Analyze(s, v, path) == Merge(s, Contribution(v, path))
  {
    MergeEmpty(s);
    AnalyzeMerge(s, map[], v, path);
  }

  /** The schema only grows: no path and no type is ever removed. */
  lemma AnalyzeGrows(s: SchemaMap, v: Json, path: string)
    ensures Below(s, Analyze(s, v, path))
  {
    AnalyzeAdds(s, v, path);
    MergeBelow(s, Contribution(v, path));
  }

  /** Analysing the same value twice at the same path gives the schema of analysing it once. */
  lemma AnalyzeIdempotent(s: SchemaMap, v: Json, path: string)
    ensures Analyze(Analyze(s, v, path), v, path) == Analyze(s, v, path)
  {
    var c := Contribution(v, path);
    AnalyzeAdds(s, v, path);
    AnalyzeAdds(Merge(s, c), v, path);
    AnalyzeAdds(c, v, path);
    MergeSelf(c);
    MergeAssoc(s, c, c);
  }

  /** Two values may be analysed in either order. */
  lemma AnalyzeCommutes(s: SchemaMap, v: Json, p: string, w: Json, q: string)
    ensures Analyze(Analyze(s, v, p), w, q) == Analyze(Analyze(s, w, q), v, p)
  {
    var cv := Contribution(v, p);
    var cw := Contribution(w, q);
    AnalyzeAdds(s, v, p);
    AnalyzeAdds(s, w, q);
    AnalyzeAdds(Merge(s, cv), w, q);
    AnalyzeAdds(Merge(s, cw), v, p);
    MergeAssoc(s, cv, cw);
    MergeAssoc(s, cw, cv);
    MergeComm(cv, cw);
  }

  lemma MembersGrows(s: SchemaMap, ms: Dict<Json>, path: string, i: nat)
    ensures Below(s, Members(s, ms, path, i))
  {
    MergeEmpty(s);
    MembersMerge(s, map[], ms, path, i);
    MergeBelow(s, Members(map[], ms, path, i));
  }

  lemma ElementsGrows(s: SchemaMap, items: seq<Json>, path: string, i: nat)
    ensures Below(s, Elements(s, items, path, i))
  {
    MergeEmpty(s);
    ElementsMerge(s, map[], items, path, i);
    MergeBelow(s, Elements(map[], items, path, i));
  }

  /** The value's own type is recorded at its path. */
  lemma TypeRecorded(s: SchemaMap, v: Json, path: string)
    ensures path in Analyze(s, v, path) && KindOf(v) in Analyze(s, v, path)[path]
  {
    var s1 := AddKinds(s, path, {KindOf(v)});
    match v
    case Obj(ms) =>
      MembersGrows(s1, ms, path, 0);
    case Arr(items) =>
      if items != [] {
        var sample := Sample(items);
        PrefixSize(items, |sample|);
        ElementsGrows(s1, sample, path, 0);
      }
    case _ =>
  }

  /** Each member of a non-empty object has its type recorded at its child path. */
  lemma MemberRecorded(s: SchemaMap, ms: Dict<Json>, path: string, j: nat)
    requires j < |ms|
    ensures ChildKey(path, ms[j].key) in Analyze(s, Obj(ms), path)
    ensures KindOf(ms[j].value) in Analyze(s, Obj(ms), path)[ChildKey(path, ms[j].key)]
  {
    MembersRecord(AddKinds(s, path, {ObjectK}), ms, path, 0, j);
  }

  lemma {:induction false} MembersRecord(s: SchemaMap, ms: Dict<Json>, path: string, i: nat, j: nat)
    requires i <= j < |ms|
    ensures ChildKey(path, ms[j].key) in Members(s, ms, path, i)
    ensures KindOf(ms[j].value) in Members(s, ms, path, i)[ChildKey(path, ms[j].key)]
    decreases j - i
  {
    var p := ChildKey(path, ms[i].key);
    var s' := Analyze(s, ms[i].value, p);
    if i == j {
      TypeRecorded(s, ms[i].value, p);
      MembersGrows(s', ms, path, i + 1);
    } else {
      MembersRecord(s', ms, path, i + 1, j);
    }
  }

  /** For a non-empty list, `path[]` holds (at least) the types of its first five elements. */
  lemma ItemTypes(s: SchemaMap, items: seq<Json>, path: string, j: nat)
    requires j < |items| && j < 5
    ensures ItemPath(path) in Analyze(s, Arr(items), path)
    ensures KindOf(items[j]) in Analyze(s, Arr(items), path)[ItemPath(path)]
  {
    var sample := Sample(items);
    assert sample[..j + 1][..j] == sample[..j];
    KindsHas(sample, j);
  }

  lemma {:induction false} KindsHas(items: seq<Json>, j: nat)
    requires j < |items|
    ensures KindOf(items[j]) in KindsOf(items)
    decreases items
  {
    if j < |items| - 1 {
      KindsHas(items[..|items| - 1], j);
    }
  }

  /** Only the first five elements of a list are looked at. */
  lemma FirstFive(s: SchemaMap, items: seq<Json>, path: string)
    requires |items| > 5
    ensures Analyze(s, Arr(items), path) == Analyze(s, Arr(items[..5]), path)
  {
    assert Sample(items[..5]) == items[..5] == Sample(items);
  }

  /**
   * An empty list records only "array" at its path and no `path[]` entry:
   * the branch that would mark empty lists is never reached.
   */
  lemma EmptyArray(s: SchemaMap, path: string)
    ensures Analyze(s, Arr([]), path) == s[path := TypesOf(s, path) + {ArrayK}]
    ensures ItemPath(path) in Analyze(s, Arr([]), path) <==> ItemPath(path) in s
  {
  }

  /** A file adds its own contribution; so reading a file twice changes nothing more. */
  lemma FileAdds(s: SchemaMap, doc: Option<Json>)
    ensures FileSchema(s, doc) == Merge(s, FileSchema(map[], doc))
  {
    MergeEmpty(s);
    match doc
    case None =>
    case Some(Obj(ms)) => MembersMerge(s, map[], ms, "", 0);
    case Some(v) => AnalyzeMerge(s, map[], v, "");
  }

  lemma FileIdempotent(s: SchemaMap, doc: Option<Json>)
    ensures FileSchema(FileSchema(s, doc), doc) == FileSchema(s, doc)
  {
    var c := FileSchema(map[], doc);
    FileAdds(s, doc);
    FileAdds(Merge(s, c), doc);
    MergeSelf(c);
    MergeAssoc(s, c, c);
  }

  /** The schema does not depend on the order in which two files are read. */
  lemma FilesCommute(s: SchemaMap, d1: Option<Json>, d2: Option<Json>)
    ensures FileSchema(FileSchema(s, d1), d2) == FileSchema(FileSchema(s, d2), d1)
  {
    var c1 := FileSchema(map[], d1);
    var c2 := FileSchema(map[], d2);
    FileAdds(s, d1);
    FileAdds(s, d2);
    FileAdds(Merge(s, c1), d2);
    FileAdds(Merge(s, c2), d1);
    MergeAssoc(s, c1, c2);
    MergeAssoc(s, c2, c1);
    MergeComm(c1, c2);
  }

  /**
   * Any document but a dict has its type recorded at the empty path; a dict
   * whose keys are non-empty records nothing there.
   */
  lemma FileRoot(s: SchemaMap, doc: Option<Json>)
    requires doc.Some?
    ensures !doc.value.Obj? ==> "" in FileSchema(s, doc) && KindOf(doc.value) in FileSchema(s, doc)[""]
    ensures doc.value.Obj? && (forall j :: 0 <= j < |doc.value.members| ==> doc.value.members[j].key != []) ==>
      "" !in FileSchema(map[], doc)
  {
    if !doc.value.Obj? {
      TypeRecorded(s, doc.value, "");
    } else if forall j :: 0 <= j < |doc.value.members| ==> doc.value.members[j].key != [] {
      MembersNoEmpty(map[], doc.value.members, 0);
    }
  }

  /** Analysing at a non-empty path only creates non-empty paths. */
  lemma {:induction false} AnalyzeKeepsEmpty(s: SchemaMap, v: Json, path: string)
    requires "" !in s && path != []
    ensures "" !in Analyze(s, v, path)
    decreases Size(v), 0
  {
    var s1 := AddKinds(s, path, {KindOf(v)});
    match v
    case Obj(ms) =>
      if ms != [] {
        MembersKeepEmpty(s1, ms, path, 0);
      }
    case Arr(items) =>
      if items != [] {
        var sample := Sample(items);
        PrefixSize(items, |sample|);
        ElementsKeepEmpty(s1, sample, path, 0);
      }
    case _ =>
  }

  lemma {:induction false} MembersKeepEmpty(s: SchemaMap, ms: Dict<Json>, path: string, i: nat)
    requires "" !in s && path != []
    ensures "" !in Members(s, ms, path, i)
    decreases MembersSize(ms), 1, |ms| - i
  {
    if i < |ms| {
      MemberSize(ms, i);
      var p := ChildKey(path, ms[i].key);
      AnalyzeKeepsEmpty(s, ms[i].value, p);
      MembersKeepEmpty(Analyze(s, ms[i].value, p), ms, path, i + 1);
    }
  }

  lemma {:induction false} ElementsKeepEmpty(s: SchemaMap, items: seq<Json>, path: string, i: nat)
    requires "" !in s
    ensures "" !in Elements(s, items, path, i)
    decreases ItemsSize(items), 1, |items| - i
  {
    if i < |items| {
      var item := items[i];
      ItemSize(items, i);
      if item.Obj? && item.members != [] {
        MembersKeepEmpty(s, item.members, ItemPath(path), 0);
        ElementsKeepEmpty(Members(s, item.members, ItemPath(path), 0), items, path, i + 1);
      } else {
        ElementsKeepEmpty(s, items, path, i + 1);
      }
    }
  }

  /** The members of a root dict are analysed at their keys; only an empty key could name "". */
  lemma {:induction false} MembersNoEmpty(s: SchemaMap, ms: Dict<Json>, i: nat)
    requires "" !in s
    requires forall j :: 0 <= j < |ms| ==> ms[j].key != []
    ensures "" !in Members(s, ms, "", i)
    decreases |ms| - i
  {
    if i < |ms| {
      AnalyzeKeepsEmpty(s, ms[i].value, ms[i].key);
      MembersNoEmpty(Analyze(s, ms[i].value, ms[i].key), ms, i + 1);
    }
  }

  // ---------------------------------------------------------------------------
  // json_type_to_supabase_type
  // ---------------------------------------------------------------------------

  datatype SqlType = TextT | DateT | IntegerT | NumericT | BooleanT | JsonbT

  function SqlName(t: SqlType): string {
    match t
    case TextT => "text"
    case DateT => "date"
    case IntegerT => "integer"
    case NumericT => "numeric"
    case BooleanT => "boolean"
    case JsonbT => "jsonb"
  }

  /** The optional `note`; a mixed set keeps its kinds, whose joined text depends on set order. */
  datatype Note = NoNote | ArrayNote | ObjectNote | MixedNote(kinds: set<JsonKind>)

  /** The column description: `type`, `nullable` and `note`. */
  datatype Column = Column(sqlType: SqlType, nullable: bool, note: Note)

  /** The three words that make a string field a date, looked for in the lower-cased name. */
  predicate DateName(name: string) {
    Contains(Lower(name), "date") || Contains(Lower(name), "opens") || Contains(Lower(name), "closes")
  }

  /**
   * `json_type_to_supabase_type`.  The "url" branch and the float-and-int
   * branch give the same column as their neighbours, as in the source.
   */
  function SupabaseType(types: set<JsonKind>, name: string): (c: Column)
    ensures c.nullable <==> NullK in types || types - {NullK} == {}
    ensures c.note != NoNote ==> c.sqlType == JsonbT
  {
    var nonNull := types - {NullK};
    var nullable := NullK in types;
    if nonNull == {} then Column(TextT, true, NoNote)
    else if StringK in nonNull && |nonNull| == 1 then
      if DateName(name) then Column(DateT, nullable, NoNote)
      else if Contains(Lower(name), "url") then Column(TextT, nullable, NoNote)
      else Column(TextT, nullable, NoNote)
    else if IntegerK in nonNull && |nonNull| == 1 then Column(IntegerT, nullable, NoNote)
    else if NumberK in nonNull then
      if IntegerK in nonNull then Column(NumericT, nullable, NoNote) else Column(NumericT, nullable, NoNote)
    else if BooleanK in nonNull && |nonNull| == 1 then Column(BooleanT, nullable, NoNote)
    else if ArrayK in nonNull then Column(JsonbT, nullable, ArrayNote)
    else if ObjectK in nonNull then Column(JsonbT, nullable, ObjectNote)
    else Column(JsonbT, nullable, MixedNote(nonNull))
  }

  /** A set with two distinct members has at least two. */
  lemma TwoMembers(s: set<JsonKind>, x: JsonKind, y: JsonKind)
    requires x in s && y in s && x != y
    ensures |s| >= 2
  {
    assert s == (s - {x}) + {x};
    assert y in s - {x};
  }

  lemma OneMember(s: set<JsonKind>, x: JsonKind)
    requires x in s && |s| == 1
    ensures s == {x}
  {
    forall y | y in s ensures y == x {
      if y != x {
        TwoMembers(s, x, y);
      }
    }
  }

  /** Only "null" (or nothing) gives a nullable text column. */
  lemma OnlyNull(types: set<JsonKind>, name: string)
    requires types <= {NullK}
    ensures SupabaseType(types, name) == Column(TextT, true, NoNote)
  {
    assert types - {NullK} == {};
  }

  /** Strings alone give a date column exactly for a date-like name, a text column otherwise. */
  lemma StringColumn(types: set<JsonKind>, name: string)
    requires types - {NullK} == {StringK}
    ensures SupabaseType(types, name).sqlType == (if DateName(name) then DateT else TextT)
  {
  }

  /** A date column only ever comes from strings alone. */
  lemma DateOnlyFromStrings(types: set<JsonKind>, name: string)
    requires SupabaseType(types, name).sqlType == DateT
    ensures types - {NullK} == {StringK} && DateName(name)
  {
    OneMember(types - {NullK}, StringK);
  }

  lemma IntegerColumn(types: set<JsonKind>, name: string)
    requires types - {NullK} == {IntegerK}
    ensures SupabaseType(types, name).sqlType == IntegerT
  {
  }

  lemma BooleanColumn(types: set<JsonKind>, name: string)
    requires types - {NullK} == {BooleanK}
    ensures SupabaseType(types, name).sqlType == BooleanT
  {
    assert StringK !in types - {NullK} && IntegerK !in types - {NullK};
  }

  /** Any set with "number" in it gives a numeric column. */
  lemma NumberColumn(types: set<JsonKind>, name: string)
    requires NumberK in types
    ensures SupabaseType(types, name).sqlType == NumericT
  {
    var nonNull := types - {NullK};
    assert NumberK in nonNull;
    if StringK in nonNull {
      TwoMembers(nonNull, StringK, NumberK);
    }
    if IntegerK in nonNull {
      TwoMembers(nonNull, IntegerK, NumberK);
    }
  }

  /** Without "number", a list anywhere in the set gives JSONB with the list note. */
  lemma ArrayColumn(types: set<JsonKind>, name: string)
    requires ArrayK in types && NumberK !in types
    ensures SupabaseType(types, name) == Column(JsonbT, NullK in types, ArrayNote)
  {
    var nonNull := types - {NullK};
    assert ArrayK in nonNull;
    if StringK in nonNull {
      TwoMembers(nonNull, StringK, ArrayK);
    }
    if IntegerK in nonNull {
      TwoMembers(nonNull, IntegerK, ArrayK);
    }
    if BooleanK in nonNull {
      TwoMembers(nonNull, BooleanK, ArrayK);
    }
  }

  /** Without "number" or a list, an object anywhere in the set gives JSONB with the nested-object note. */
  lemma ObjectColumn(types: set<JsonKind>, name: string)
    requires ObjectK in types && ArrayK !in types && NumberK !in types
    ensures SupabaseType(types, name) == Column(JsonbT, NullK in types, ObjectNote)
  {
    var nonNull := types - {NullK};
    assert ObjectK in nonNull;
    if StringK in nonNull {
      TwoMembers(nonNull, StringK, ObjectK);
    }
    if IntegerK in nonNull {
      TwoMembers(nonNull, IntegerK, ObjectK);
    }
    if BooleanK in nonNull {
      TwoMembers(nonNull, BooleanK, ObjectK);
    }
  }

  /** The mixed note is given only to two or more of string, integer and boolean. */
  lemma MixedColumn(types: set<JsonKind>, name: string, ks: set<JsonKind>)
    requires SupabaseType(types, name).note == MixedNote(ks)
    ensures ks == types - {NullK} && |ks| >= 2
    ensures ks <= {StringK, IntegerK, BooleanK}
  {
    var nonNull := types - {NullK};
    assert NumberK !in nonNull && ArrayK !in nonNull && ObjectK !in nonNull && nonNull != {};
    assert ks == nonNull;
    forall y | y in ks ensures y in {StringK, IntegerK, BooleanK} {
      assert y != NullK;
    }
    var x :| x in nonNull;
    if |nonNull| < 2 {
      OneMember(nonNull, x);
    }
  }

  // ---------------------------------------------------------------------------
  // generate_schema_json
  // ---------------------------------------------------------------------------

  /** The kinds in the alphabetical order of their names. */
  const KindOrder: seq<JsonKind> := [ArrayK, BooleanK, IntegerK, NullK, NumberK, ObjectK, StringK]

  /** The names of the kinds of `ks` that are in `types`, in the order of `ks`. */
  function NamesIn(types: set<JsonKind>, ks: seq<JsonKind>): seq<string> {
    if ks == [] then []
    else (if ks[0] in types then [Name(ks[0])] else []) + NamesIn(types, ks[1..])
  }

  /** `sorted(list(types))`. */
  function TypeNames(types: set<JsonKind>): seq<string> {
    NamesIn(types, KindOrder)
  }

  lemma OrderNext(i: nat)
    requires i + 1 < |KindOrder|
    ensures Leq(Name(KindOrder[i]), Name(KindOrder[i + 1])) && Name(KindOrder[i]) != Name(KindOrder[i + 1])
  {
    if i == 3 {
      assert "null"[1..] == "ull" && "number"[1..] == "umber";
      assert "ull"[1..] == "ll" && "umber"[1..] == "mber";
    }
  }

  lemma {:induction false} OrderLess(i: nat, j: nat)
    requires i < j < |KindOrder|
    ensures Leq(Name(KindOrder[i]), Name(KindOrder[j])) && Name(KindOrder[i]) != Name(KindOrder[j])
    decreases j - i
  {
    OrderNext(i);
    if i + 1 < j {
      OrderLess(i + 1, j);
      LeqTrans(Name(KindOrder[i]), Name(KindOrder[i + 1]), Name(KindOrder[j]));
      if Name(KindOrder[i]) == Name(KindOrder[j]) {
        LeqAntisym(Name(KindOrder[i]), Name(KindOrder[i + 1]));
      }
    }
  }

  /** The kinds of `ks` have strictly increasing names. */
  ghost predicate Ascending(ks: seq<JsonKind>) {
    forall a, b :: 0 <= a < b < |ks| ==> Leq(Name(ks[a]), Name(ks[b])) && Name(ks[a]) != Name(ks[b])
  }

  lemma KindOrderAscending()
    ensures Ascending(KindOrder)
  {
    forall a, b | 0 <= a < b < |KindOrder|
      ensures Leq(Name(KindOrder[a]), Name(KindOrder[b])) && Name(KindOrder[a]) != Name(KindOrder[b])
    {
      OrderLess(a, b);
    }
  }

  lemma {:induction false} NamesInMembers(types: set<JsonKind>, ks: seq<JsonKind>)
    ensures forall n :: n in NamesIn(types, ks) <==>
      exists j :: 0 <= j < |ks| && ks[j] in types && n == Name(ks[j])
  {
    if ks != [] {
      var rest := ks[1..];
      NamesInMembers(types, rest);
      var head := if ks[0] in types then [Name(ks[0])] else [];
      assert NamesIn(types, ks) == head + NamesIn(types, rest);
      forall n | n in NamesIn(types, ks)
        ensures exists j :: 0 <= j < |ks| && ks[j] in types && n == Name(ks[j])
      {
        if n !in head {
          var j :| 0 <= j < |rest| && rest[j] in types && n == Name(rest[j]);
          assert ks[j + 1] == rest[j];
        }
      }
      forall n | exists j :: 0 <= j < |ks| && ks[j] in types && n == Name(ks[j])
        ensures n in NamesIn(types, ks)
      {
        var j :| 0 <= j < |ks| && ks[j] in types && n == Name(ks[j]);
        if j == 0 {
          assert n in head;
        } else {
          assert rest[j - 1] == ks[j];
        }
      }
    }
  }

  lemma {:induction false} NamesInSpec(types: set<JsonKind>, ks: seq<JsonKind>)
    requires Ascending(ks)
    ensures Sorted(NamesIn(types, ks)) && Distinct(NamesIn(types, ks))
  {
    if ks != [] {
      var rest := ks[1..];
      assert Ascending(rest) by {
        forall a, b | 0 <= a < b < |rest| ensures Leq(Name(rest[a]), Name(rest[b])) && Name(rest[a]) != Name(rest[b]) {
          assert rest[a] == ks[a + 1] && rest[b] == ks[b + 1];
        }
      }
      NamesInSpec(types, rest);
      var tail := NamesIn(types, rest);
      if ks[0] in types {
        NamesInMembers(types, rest);
        var head := Name(ks[0]);
        forall n | n in tail ensures Leq(head, n) && head != n {
          var j :| 0 <= j < |rest| && rest[j] in types && n == Name(rest[j]);
          assert rest[j] == ks[j + 1];
        }
        var r := [head] + tail;
        assert forall a :: 0 < a < |r| ==> r[a] == tail[a - 1] && r[a] in tail;
      }
    }
  }

  /** `sorted(list(types))` lists the names of exactly the kinds in the set, in order, each once. */
  lemma TypeNamesSpec(types: set<JsonKind>)
    ensures Sorted(TypeNames(types)) && Distinct(TypeNames(types))
    ensures forall k :: Name(k) in TypeNames(types) <==> k in types
  {
    KindOrderAscending();
    NamesInSpec(types, KindOrder);
    NamesInMembers(types, KindOrder);
    forall k ensures Name(k) in TypeNames(types) <==> k in types {
      if Name(k) in TypeNames(types) {
        var j :| 0 <= j < |KindOrder| && KindOrder[j] in types && Name(k) == Name(KindOrder[j]);
        NameInjective(k, KindOrder[j]);
      }
      if k in types {
        var j := KindIndex(k);
        assert KindOrder[j] in types && Name(k) == Name(KindOrder[j]);
      }
    }
  }

  /** Where each kind sits in `KindOrder`. */
  function KindIndex(k: JsonKind): (j: nat)
    ensures j < |KindOrder| && KindOrder[j] == k
  {
    match k
    case ArrayK => 0
    case BooleanK => 1
    case IntegerK => 2
    case NullK => 3
    case NumberK => 4
    case ObjectK => 5
    case StringK => 6
  }

  /** One entry of `fields`: the column description with `json_types` added. */
  datatype FieldInfo = FieldInfo(column: Column, jsonTypes: seq<string>)

  function InfoOf(types: set<JsonKind>, path: string): FieldInfo {
    FieldInfo(SupabaseType(types, path), TypeNames(types))
  }

  /** The `schema.json` document. */
  datatype SchemaJson = SchemaJson(fields: Dict<FieldInfo>, totalFields: nat, rootFields: nat, nestedFields: nat)

  /** A list's item-type entry, which is not listed: ends in "[]" but does not start with it. */
  predicate Marker(path: string) { EndsWith(path, "[]") && !StartsWith(path, "[]") }

  /** A nested field: a '.' or a "[]" in its path. */
  predicate Nested(path: string) { Contains(path, ".") || Contains(path, "[]") }

  /** The number of listed fields that are not nested. */
  function RootCount(fields: Dict<FieldInfo>): (n: nat)
    ensures n <= |fields|
    decreases fields
  {
    if fields == [] then 0
    else RootCount(fields[..|fields| - 1]) + (if Nested(fields[|fields| - 1].key) then 0 else 1)
  }

  /**
   * `generate_schema_json`: every path that is not an item-type entry, in
   * sorted order, with its column description; the counters split the
   * listed fields into root and nested ones.
   */
  method GenerateSchemaJson(schema: SchemaMap) returns (r: SchemaJson)
    ensures r.totalFields == |schema|
    ensures r.rootFields + r.nestedFields == |r.fields| <= |schema|
    ensures r.rootFields == RootCount(r.fields)
    ensures forall p :: p in Keys(r.fields) <==> p in schema && !Marker(p)
    ensures forall a :: 0 <= a < |r.fields| ==>
      r.fields[a].key in schema && r.fields[a].value == InfoOf(schema[r.fields[a].key], r.fields[a].key)
    ensures forall a, b :: 0 <= a < b < |r.fields| ==>
      Leq(r.fields[a].key, r.fields[b].key) && r.fields[a].key != r.fields[b].key
  {
    r := Summarize(schema, InfoOf);
  }

  /** The loop of `generate_schema_json`, for any way `describe` of building a field's entry. */
  method Summarize(schema: SchemaMap, describe: (set<JsonKind>, string) -> FieldInfo) returns (r: SchemaJson)
    ensures r.totalFields == |schema|
    ensures r.rootFields + r.nestedFields == |r.fields| <= |schema|
    ensures r.rootFields == RootCount(r.fields)
    ensures forall p :: p in Keys(r.fields) <==> p in schema && !Marker(p)
    ensures forall a :: 0 <= a < |r.fields| ==>
      r.fields[a].key in schema && r.fields[a].value == describe(schema[r.fields[a].key], r.fields[a].key)
    ensures forall a, b :: 0 <= a < b < |r.fields| ==>
      Leq(r.fields[a].key, r.fields[b].key) && r.fields[a].key != r.fields[b].key
  {
    var paths := SortedStrings(schema.Keys);
    var fields: Dict<FieldInfo> := [];
    var root, nested := 0, 0;
    for i := 0 to |paths|
      invariant fields == ListFields(schema, describe, paths[..i])
      invariant root == RootCount(fields) && root + nested == |fields|
    {
      ListFieldsNext(schema, describe, paths, i);
      fields, root, nested := ListPath(schema, describe, paths[i], fields, root, nested);
    }
    assert paths[..|paths|] == paths;
    SummaryFields(schema, describe, paths, fields);
    r := SchemaJson(fields, |schema|, root, nested);
  }

  /** The loop body for one path: list it unless it is an item-type entry, and count it. */
  method ListPath(schema: SchemaMap, describe: (set<JsonKind>, string) -> FieldInfo, path: string,
                  fields: Dict<FieldInfo>, root: nat, nested: nat)
    returns (fields': Dict<FieldInfo>, root': nat, nested': nat)
    requires path in schema
    requires root == RootCount(fields) && root + nested == |fields|
    ensures fields' == fields + (if Marker(path) then [] else [Item(path, describe(schema[path], path))])
    ensures root' == RootCount(fields') && root' + nested' == |fields'|
  {
    fields', root', nested' := fields, root, nested;
    if !Marker(path) {
      var entry := Item(path, describe(schema[path], path));
      fields' := fields + [entry];
      assert fields'[..|fields|] == fields;
      if Nested(path) {
        nested' := nested + 1;
      } else {
        root' := root + 1;
      }
    }
  }

  /** One more path extends the listed entries by that path's entry, if any. */
  lemma ListFieldsNext(schema: SchemaMap, describe: (set<JsonKind>, string) -> FieldInfo, paths: seq<string>, i: nat)
    requires i < |paths| && forall x :: x in paths ==> x in schema
    ensures forall x :: x in paths[..i] ==> x in schema
    ensures forall x :: x in paths[..i + 1] ==> x in schema
    ensures paths[i] in schema
    ensures ListFields(schema, describe, paths[..i + 1])
         == ListFields(schema, describe, paths[..i])
            + (if Marker(paths[i]) then [] else [Item(paths[i], describe(schema[paths[i]], paths[i]))])
  {
    assert paths[..i + 1][..i] == paths[..i];
    assert paths[..i + 1][i] == paths[i];
  }

  /** What the listed entries of all the sorted paths satisfy. */
  lemma SummaryFields(schema: SchemaMap, describe: (set<JsonKind>, string) -> FieldInfo, paths: seq<string>, fields: Dict<FieldInfo>)
    requires Sorted(paths) && Distinct(paths) && forall x :: x in paths <==> x in schema
    requires fields == ListFields(schema, describe, paths)
    ensures |fields| <= |paths|
    ensures forall p :: p in Keys(fields) <==> p in schema && !Marker(p)
    ensures forall a :: 0 <= a < |fields| ==>
      fields[a].key in schema && fields[a].value == describe(schema[fields[a].key], fields[a].key)
    ensures forall a, b :: 0 <= a < b < |fields| ==>
      Leq(fields[a].key, fields[b].key) && fields[a].key != fields[b].key
  {
    ListFieldsSpec(schema, describe, paths);
  }

  /** The entries the loop lists for the paths `ps`, in their order. */
  function ListFields(schema: SchemaMap, describe: (set<JsonKind>, string) -> FieldInfo, ps: seq<string>): Dict<FieldInfo>
    requires forall p :: p in ps ==> p in schema
    decreases ps
  {
    if ps == [] then []
    else
      var last := ps[|ps| - 1];
      ListFields(schema, describe, ps[..|ps| - 1]) + (if Marker(last) then [] else [Item(last, describe(schema[last], last))])
  }

  /**
   * For sorted distinct paths, the entries are those of the listed paths,
   * each with its description, in strictly increasing order of path.
   */
  lemma ListFieldsSpec(schema: SchemaMap, describe: (set<JsonKind>, string) -> FieldInfo, ps: seq<string>)
    requires forall p :: p in ps ==> p in schema
    requires Sorted(ps) && Distinct(ps)
    ensures var r := ListFields(schema, describe, ps);
      && |r| <= |ps|
      && (forall p :: p in Keys(r) <==> p in ps && !Marker(p))
      && (forall a :: 0 <= a < |r| ==> r[a].key in schema && r[a].value == describe(schema[r[a].key], r[a].key))
      && (forall a, b :: 0 <= a < b < |r| ==> Leq(r[a].key, r[b].key) && r[a].key != r[b].key)
  {
    ListFieldsKeys(schema, describe, ps);
    ListFieldsValues(schema, describe, ps);
    ListFieldsSorted(schema, describe, ps);
  }

  lemma {:induction false} ListFieldsKeys(schema: SchemaMap, describe: (set<JsonKind>, string) -> FieldInfo, ps: seq<string>)
    requires forall p :: p in ps ==> p in schema
    ensures |ListFields(schema, describe, ps)| <= |ps|
    ensures forall p :: p in Keys(ListFields(schema, describe, ps)) <==> p in ps && !Marker(p)
    decreases ps
  {
    if ps != [] {
      var init := ps[..|ps| - 1];
      var last := ps[|ps| - 1];
      assert forall p :: p in init ==> p in ps;
      ListFieldsKeys(schema, describe, init);
      assert forall p :: p in ps <==> p in init || p == last;
      var r0 := ListFields(schema, describe, init);
      if !Marker(last) {
        KeysSnoc(r0, Item(last, describe(schema[last], last)));
      } else {
        assert ListFields(schema, describe, ps) == r0 + [] == r0;
      }
    }
  }

  /** Every entry names a path of the schema and holds that path's description. */
  predicate Described(schema: SchemaMap, describe: (set<JsonKind>, string) -> FieldInfo, fields: Dict<FieldInfo>) {
    forall a :: 0 <= a < |fields| ==>
      fields[a].key in schema && fields[a].value == describe(schema[fields[a].key], fields[a].key)
  }

  lemma {:induction false} ListFieldsValues(schema: SchemaMap, describe: (set<JsonKind>, string) -> FieldInfo, ps: seq<string>)
    requires forall p :: p in ps ==> p in schema
    ensures Described(schema, describe, ListFields(schema, describe, ps))
    decreases ps
  {
    if ps != [] {
      var init := ps[..|ps| - 1];
      var last := ps[|ps| - 1];
      assert forall p :: p in init ==> p in ps;
      ListFieldsValues(schema, describe, init);
      var r0 := ListFields(schema, describe, init);
      if !Marker(last) {
        var r := r0 + [Item(last, describe(schema[last], last))];
        assert forall a :: 0 <= a < |r0| ==> r[a] == r0[a];
        assert r[|r0|] == Item(last, describe(schema[last], last));
      } else {
        assert ListFields(schema, describe, ps) == r0 + [] == r0;
      }
    }
  }

  lemma {:induction false} ListFieldsSorted(schema: SchemaMap, describe: (set<JsonKind>, string) -> FieldInfo, ps: seq<string>)
    requires forall p :: p in ps ==> p in schema
    requires Sorted(ps) && Distinct(ps)
    ensures var r := ListFields(schema, describe, ps);
      forall a, b :: 0 <= a < b < |r| ==> Leq(r[a].key, r[b].key) && r[a].key != r[b].key
    decreases ps
  {
    if ps != [] {
      var init := ps[..|ps| - 1];
      var last := ps[|ps| - 1];
      assert forall p :: p in init ==> p in ps;
      ListFieldsSorted(schema, describe, init);
      ListFieldsKeys(schema, describe, init);
      var r0 := ListFields(schema, describe, init);
      if !Marker(last) {
        forall a | 0 <= a < |r0| ensures Leq(r0[a].key, last) && r0[a].key != last {
          assert r0[a].key in Keys(r0);
          var j :| 0 <= j < |init| && init[j] == r0[a].key;
          assert ps[j] == init[j];
        }
      }
    }
  }

  /**
   * The item-type entry of a list at `path` is left out unless the path is
   * empty or itself starts with "[]", which is the case under a top-level
   * list: "tags[]" is not listed, "[]" and "[].tags[]" are.
   */
  lemma ItemEntryListed(path: string)
    ensures Marker(ItemPath(path)) <==> path != [] && !StartsWith(path, "[]")
  {
    var q := ItemPath(path);
    assert EndsWith(q, "[]") by {
      assert q[|q| - 2..] == "[]";
    }
    if path == [] {
      assert StartsWith(q, "[]");
    } else if StartsWith(path, "[]") {
      assert q[..2] == path[..2];
    } else if |path| >= 2 {
      assert q[..2] == path[..2];
    } else {
      assert q[1] == '[';
    }
  }

  /** An item-type entry is always nested. */
  lemma MarkerNested(path: string)
    requires Marker(path)
    ensures Nested(path)
  {
    ContainsAt(path, "[]", |path| - 2);
  }
}
