/**
 * A JSON document as `json.load` gives it to the post-processing scripts:
 * `None`, booleans, integers, strings, lists and dicts with string keys in
 * insertion order.  Python's truthiness and `str()` of such a value, and the
 * `flatten_dict` that discover_filters.py and generate_csv.py both define.
 */
module JsonValues {
  import opened Wrappers
  import opened Dicts
  import opened Text

  datatype Json =
    | Null
    | Bool(b: bool)
    | Int(i: int)
    | Str(s: string)
    | Arr(items: seq<Json>)
    | Obj(members: Dict<Json>)

  /** A measure that every immediate part of a value is below. */
  function Size(j: Json): (n: nat)
    ensures n >= 1
  {
    match j
    case Arr(items) => 1 + ItemsSize(items)
    case Obj(ms) => 1 + MembersSize(ms)
    case _ => 1
  }

  function ItemsSize(items: seq<Json>): nat
    decreases items
  {
    if items == [] then 0 else ItemsSize(items[..|items| - 1]) + Size(items[|items| - 1])
  }

  function MembersSize(ms: Dict<Json>): nat
    decreases ms
  {
    if ms == [] then 0 else MembersSize(ms[..|ms| - 1]) + Size(ms[|ms| - 1].value)
  }

  lemma LastMemberSize(d: Dict<Json>)
    requires d != []
    ensures MembersSize(d[..|d| - 1]) < MembersSize(d)
    ensures d[|d| - 1].value.Obj? ==> MembersSize(d[|d| - 1].value.members) < MembersSize(d)
  {
    var v := d[|d| - 1].value;
    if v.Obj? {
      assert Size(v) == 1 + MembersSize(v.members);
    }
  }

  /** Every element of a list is within the list's measure. */
  lemma {:induction false} ItemSize(items: seq<Json>, i: nat)
    requires i < |items|
    ensures Size(items[i]) <= ItemsSize(items)
    decreases items
  {
    if i < |items| - 1 {
      ItemSize(items[..|items| - 1], i);
    }
  }

  /** A prefix of a list is within the list's measure. */
  lemma {:induction false} PrefixSize(items: seq<Json>, n: nat)
    requires n <= |items|
    ensures ItemsSize(items[..n]) <= ItemsSize(items)
    decreases items
  {
    if n < |items| {
      PrefixSize(items[..|items| - 1], n);
      assert items[..|items| - 1][..n] == items[..n];
    } else {
      assert items[..n] == items;
    }
  }

  /** Every member value of a dict is within the dict's measure. */
  lemma {:induction false} MemberSize(ms: Dict<Json>, i: nat)
    requires i < |ms|
    ensures Size(ms[i].value) <= MembersSize(ms)
    decreases ms
  {
    if i < |ms| - 1 {
      MemberSize(ms[..|ms| - 1], i);
    }
  }

  /** Python's `bool(v)`. */
  predicate Truthy(v: Json) {
    match v
    case Null => false
    case Bool(b) => b
    case Int(i) => i != 0
    case Str(s) => s != []
    case Arr(items) => items != []
    case Obj(ms) => ms != []
  }

  function DigitChar(d: nat): (c: char)
    requires d < 10
    ensures IsDigit(c)
  {
    (d + '0' as int) as char
  }

  /** `str(n)` for a natural number: its decimal digits. */
  function NatToString(n: nat): (r: string)
    ensures r != [] && forall i :: 0 <= i < |r| ==> IsDigit(r[i])
  {
    if n < 10 then [DigitChar(n)] else NatToString(n / 10) + [DigitChar(n % 10)]
  }

  function IntToString(i: int): (r: string)
    ensures r != [] && !IsSpace(r[0]) && !IsSpace(r[|r| - 1])
  {
    if i < 0 then "-" + NatToString(-i) else NatToString(i)
  }

  /**
   * Python's `str(v)`.  Strings inside a list or dict are shown between single
   * quotes without Python's escaping rules.
   */
  function PyStr(v: Json): string
    decreases Size(v), 0
  {
    match v
    case Null => "None"
    case Bool(b) => if b then "True" else "False"
    case Int(i) => IntToString(i)
    case Str(s) => s
    case Arr(items) => "[" + Join(", ", ReprItems(items)) + "]"
    case Obj(ms) => "{" + Join(", ", ReprMembers(ms)) + "}"
  }

  /** Python's `repr(v)` as it appears inside a container. */
  function Repr(v: Json): string
    decreases Size(v), 1
  {
    if v.Str? then "'" + v.s + "'" else PyStr(v)
  }

  function ReprItems(items: seq<Json>): (r: seq<string>)
    ensures |r| == |items|
    decreases ItemsSize(items), 2
  {
    if items == [] then []
    else ReprItems(items[..|items| - 1]) + [Repr(items[|items| - 1])]
  }

  function ReprMembers(ms: Dict<Json>): (r: seq<string>)
    ensures |r| == |ms|
    decreases MembersSize(ms), 2
  {
    if ms == [] then []
    else
      var m := ms[|ms| - 1];
      ReprMembers(ms[..|ms| - 1]) + ["'" + m.key + "': " + Repr(m.value)]
  }

  /** `str(v)` of a value that is not a string is never empty. */
  lemma PyStrNonEmpty(v: Json)
    requires !v.Str?
    ensures PyStr(v) != []
  {
  }

  // ---------------------------------------------------------------------------
  // flatten_dict
  // ---------------------------------------------------------------------------

  /** `f"{parent_key}.{k}" if parent_key else k`. */
  function ChildKey(parent: string, k: string): (r: string)
    ensures parent != [] ==> StartsWith(r, parent + ".")
    ensures parent == [] ==> r == k
  {
    if parent != [] then parent + "." + k else k
  }

  /**
   * `flatten_dict(d, parent)`: nested dicts are replaced by their own flattened
   * items under dotted keys; the collected pairs are then made into a dict.
   */
  function Flatten(d: Dict<Json>, parent: string): Dict<Json>
    decreases MembersSize(d), 1
  {
    FromItems(FlattenItems(d, parent))
  }

  /** The pairs `flatten_dict` collects before `dict(items)`, in order. */
  function FlattenItems(d: Dict<Json>, parent: string): seq<Item<Json>>
    decreases MembersSize(d), 0
  {
    if d == [] then []
    else
      var m := d[|d| - 1];
      var key := ChildKey(parent, m.key);
      LastMemberSize(d);
      FlattenItems(d[..|d| - 1], parent)
        + (if m.value.Obj? then Flatten(m.value.members, key) else [Item(key, m.value)])
  }

  /** No value of a flattened dict is a dict. */
  lemma {:induction false} FlattenNoObj(d: Dict<Json>, parent: string)
    ensures forall i :: 0 <= i < |Flatten(d, parent)| ==> !Flatten(d, parent)[i].value.Obj?
    decreases MembersSize(d), 1
  {
    FlattenItemsNoObj(d, parent);
  }

  lemma {:induction false} FlattenItemsNoObj(d: Dict<Json>, parent: string)
    ensures forall i :: 0 <= i < |FlattenItems(d, parent)| ==> !FlattenItems(d, parent)[i].value.Obj?
    decreases MembersSize(d), 0
  {
    if d != [] {
      var m := d[|d| - 1];
      FlattenItemsNoObj(d[..|d| - 1], parent);
      LastMemberSize(d);
      if m.value.Obj? {
        FlattenNoObj(m.value.members, ChildKey(parent, m.key));
      }
    }
  }

  /** Under a non-empty parent every flattened key is `parent + "." + …`. */
  lemma {:induction false} FlattenPrefix(d: Dict<Json>, parent: string)
    requires parent != []
    ensures forall i :: 0 <= i < |Flatten(d, parent)| ==> StartsWith(Flatten(d, parent)[i].key, parent + ".")
    decreases MembersSize(d), 1
  {
    FlattenItemsPrefix(d, parent);
  }

  lemma {:induction false} FlattenItemsPrefix(d: Dict<Json>, parent: string)
    requires parent != []
    ensures forall i :: 0 <= i < |FlattenItems(d, parent)| ==> StartsWith(FlattenItems(d, parent)[i].key, parent + ".")
    decreases MembersSize(d), 0
  {
    if d != [] {
      var m := d[|d| - 1];
      var key := ChildKey(parent, m.key);
      FlattenItemsPrefix(d[..|d| - 1], parent);
      LastMemberSize(d);
      if m.value.Obj? {
        FlattenPrefix(m.value.members, key);
        forall i | 0 <= i < |Flatten(m.value.members, key)|
          ensures StartsWith(Flatten(m.value.members, key)[i].key, parent + ".")
        {
          PrefixTrans(Flatten(m.value.members, key)[i].key, key + ".", parent + ".");
        }
      }
    }
  }

  lemma PrefixTrans(s: string, p: string, q: string)
    requires StartsWith(s, p) && StartsWith(p, q)
    ensures StartsWith(s, q)
  {
    assert s[..|q|] == p[..|q|];
  }

  /** A member whose value is an empty dict contributes no key. */
  lemma FlattenEmptyMember(d: Dict<Json>, parent: string, k: string)
    ensures FlattenItems(d + [Item(k, Obj([]))], parent) == FlattenItems(d, parent)
  {
    var e := d + [Item(k, Obj([]))];
    assert e[..|e| - 1] == d;
  }

  /** A dict without nested dicts and with distinct keys flattens to itself. */
  lemma {:induction false} FlattenFlat(d: Dict<Json>)
    requires DistinctKeys(d)
    requires forall i :: 0 <= i < |d| ==> !d[i].value.Obj?
    ensures Flatten(d, "") == d
  {
    FlattenItemsFlat(d);
    FromDistinct(d);
  }

  lemma {:induction false} FlattenItemsFlat(d: Dict<Json>)
    requires forall i :: 0 <= i < |d| ==> !d[i].value.Obj?
    ensures FlattenItems(d, "") == d
  {
    if d != [] {
      FlattenItemsFlat(d[..|d| - 1]);
      assert d == d[..|d| - 1] + [d[|d| - 1]];
    }
  }
}
