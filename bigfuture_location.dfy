/**
 * The two ways the BigFuture detail scraper turns location text into a dict:
 * `_parse_location_string`, which reads "Country: US, State: FL, County: A, B"
 * and attaches colon-free items to the field before them, and the item rule
 * of `_extract_location_structure`, which reads one "Field: Value" text per
 * list item.
 */
module Location {
  import opened Wrappers
  import opened Text
  import opened Dicts

  // ---------------------------------------------------------------------------
  // _parse_location_string
  // ---------------------------------------------------------------------------

  /**
   * How the scanner reads one item of `location_string.split(', ')` once it
   * is stripped: an item holding a ':' opens the field named by the text
   * before its first ':' (stripped, lower-cased, spaces to '_') with the
   * stripped text after it as first value; any other item is plain text.
   * `item.split(':', 1)` of a text holding a ':' always has two parts, so
   * the branch that resets the field to `None` is never taken.
   */
  datatype Piece = Field(key: string, value: string) | Plain(text: string)

  /** No space and no upper-case letter: what the normalisation leaves, possibly empty. */
  predicate KeyLike(k: string) {
    ' ' !in k && forall i :: 0 <= i < |k| ==> !IsUpper(k[i])
  }

  function Read(raw: string): (p: Piece)
    ensures p.Field? ==> KeyLike(p.key)
  {
    var item := Strip(raw);
    match CharSplit(item, ':')
    case Some(parts) => Field(KeyOf(Strip(parts.0)), Strip(parts.1))
    case None => Plain(item)
  }

  /** An item is plain text exactly when its stripped text has no ':', and then it is that text. */
  lemma ReadPlain(raw: string)
    ensures Read(raw).Plain? <==> ':' !in Strip(raw)
    ensures Read(raw).Plain? ==> Read(raw).text == Strip(raw)
  {
    CharSplitSpec(Strip(raw), ':');
  }

  /** Every item of the split, read. */
  function Reads(items: seq<string>): (r: seq<Piece>)
    ensures |r| == |items|
  {
    if items == [] then [] else [Read(items[0])] + Reads(items[1..])
  }

  lemma {:induction false} ReadsAt(items: seq<string>, i: nat)
    requires i < |items|
    ensures Reads(items)[i] == Read(items[i])
  {
    if i > 0 {
      ReadsAt(items[1..], i - 1);
    }
  }

  /** A list holding the reading of each item is `Reads` of the items. */
  lemma {:induction false} ReadsIs(items: seq<string>, ps: seq<Piece>)
    requires |ps| == |items| && forall j :: 0 <= j < |items| ==> ps[j] == Read(items[j])
    ensures Reads(items) == ps
  {
    if items != [] {
      forall j | 0 <= j < |items| - 1 ensures ps[1..][j] == Read(items[1..][j]) {
        assert ps[j + 1] == Read(items[j + 1]);
      }
      ReadsIs(items[1..], ps[1..]);
      assert ps == [ps[0]] + ps[1..];
    }
  }

  /** Every field read has a normalised (possibly empty) name. */
  lemma ReadsKeyLike(items: seq<string>)
    ensures forall i :: 0 <= i < |Reads(items)| ==> Reads(items)[i].Field? ==> KeyLike(Reads(items)[i].key)
  {
    forall i | 0 <= i < |Reads(items)| ensures Reads(items)[i].Field? ==> KeyLike(Reads(items)[i].key) {
      ReadsAt(items, i);
    }
  }

  /**
   * The scanner's variables `current_field`, `current_values` and
   * `location_dict`.  A field of `None` is written "", which Python treats the
   * same way: both are falsy.
   */
  datatype Scan = Scan(field: string, values: seq<string>, dict: Dict<string>)

  const Start: Scan := Scan([], [], [])

  /** Saving the field being collected, when it has a name and values. */
  function Flush(st: Scan): (d: Dict<string>)
    ensures st.dict != [] ==> d != []
  {
    if st.field != [] && st.values != [] then Put(st.dict, st.field, Join(", ", st.values)) else st.dict
  }

  /** One item: a field saves the one before it and starts anew; plain text joins a named field. */
  function Step(st: Scan, p: Piece): Scan {
    match p
    case Field(k, v) => Scan(k, [v], Flush(st))
    case Plain(t) => if st.field != [] then Scan(st.field, st.values + [t], st.dict) else st
  }

  /** The scanner after the pieces, one after another. */
  function Run(st: Scan, ps: seq<Piece>): Scan {
    if ps == [] then st else Step(Run(st, ps[..|ps| - 1]), ps[|ps| - 1])
  }

  function ParsePieces(ps: seq<Piece>): Option<Dict<string>> {
    var d := Flush(Run(Start, ps));
    if d == [] then None else Some(d)
  }

  /** What `_parse_location_string(s)` returns. */
  function ParseLocation(s: string): Option<Dict<string>> {
    ParsePieces(Reads(Split(s, ", ")))
  }

  lemma RunSnoc(st: Scan, ps: seq<Piece>, p: Piece)
    ensures Run(st, ps + [p]) == Step(Run(st, ps), p)
  {
    assert (ps + [p])[..|ps|] == ps;
  }

  /** `_parse_location_string`, as the loop the scraper runs. */
  method ParseLocationString(s: string) returns (r: Option<Dict<string>>)
    ensures r == ParseLocation(s)
  {
    var items := Split(s, ", ");
    r := ParseLocationItems(items);
  }

  /** The loop of `_parse_location_string` over the items of the split. */
  method ParseLocationItems(items: seq<string>) returns (r: Option<Dict<string>>)
    ensures r == ParsePieces(Reads(items))
  {
    var field: string := [];
    var values: seq<string> := [];
    var dict: Dict<string> := [];
    ghost var ps: seq<Piece> := [];
    var i := 0;
    while i < |items|
      invariant 0 <= i <= |items|
      invariant |ps| == i && forall j :: 0 <= j < i ==> ps[j] == Read(items[j])
      invariant Scan(field, values, dict) == Run(Start, ps)
    {
      var p := Read(items[i]);
      field, values, dict := ScanItem(field, values, dict, p);
      RunSnoc(Start, ps, p);
      ps := ps + [p];
      i := i + 1;
    }
    ReadsIs(items, ps);
    if field != [] && values != [] {
      dict := Put(dict, field, Join(", ", values));
    }
    r := if dict == [] then None else Some(dict);
  }

  /** The loop body for one item read as `p`. */
  method ScanItem(field: string, values: seq<string>, dict: Dict<string>, p: Piece)
    returns (field': string, values': seq<string>, dict': Dict<string>)
    ensures Scan(field', values', dict') == Step(Scan(field, values, dict), p)
  {
    field', values', dict' := field, values, dict;
    match p {
      case Field(k, v) =>
        if field != [] && values != [] {
          dict' := Put(dict, field, Join(", ", values));
        }
        field' := k;
        values' := [v];
      case Plain(t) =>
        if field != [] {
          values' := values + [t];
        }
    }
  }

  /** An item that opens a field with a non-empty name. */
  predicate Named(p: Piece) {
    p.Field? && p.key != []
  }

  /** The scanner's invariant: the field being collected and every saved key are normalised keys. */
  predicate WellKeyed(st: Scan) {
    (st.field == [] || IsKey(st.field))
    && forall i :: 0 <= i < |st.dict| ==> IsKey(st.dict[i].key)
  }

  lemma {:induction false} RunWellKeyed(ps: seq<Piece>)
    requires forall i :: 0 <= i < |ps| ==> ps[i].Field? ==> KeyLike(ps[i].key)
    ensures WellKeyed(Run(Start, ps))
  {
    if ps != [] {
      RunWellKeyed(ps[..|ps| - 1]);
      var st := Run(Start, ps[..|ps| - 1]);
      var d := Flush(st);
      assert forall i :: 0 <= i < |d| ==> IsKey(d[i].key) by {
        if st.field != [] && st.values != [] {
          forall i | 0 <= i < |d| ensures IsKey(d[i].key) {
            assert d[i] in st.dict || d[i].key == st.field;
          }
        }
      }
    }
  }

  /** Every key of the result is non-empty, lower-case and free of spaces. */
  lemma ParseKeys(s: string)
    ensures ParseLocation(s).Some? ==> forall i :: 0 <= i < |ParseLocation(s).value| ==> IsKey(ParseLocation(s).value[i].key)
  {
    ReadsKeyLike(Split(s, ", "));
    PiecesKeys(Reads(Split(s, ", ")));
  }

  lemma PiecesKeys(ps: seq<Piece>)
    requires forall i :: 0 <= i < |ps| ==> ps[i].Field? ==> KeyLike(ps[i].key)
    ensures ParsePieces(ps).Some? ==> forall i :: 0 <= i < |ParsePieces(ps).value| ==> IsKey(ParsePieces(ps).value[i].key)
  {
    RunWellKeyed(ps);
    var st := Run(Start, ps);
    var d := Flush(st);
    if st.field != [] && st.values != [] {
      forall i | 0 <= i < |d| ensures IsKey(d[i].key) {
        assert d[i] in st.dict || d[i].key == st.field;
      }
    }
  }

  lemma {:induction false} RunAppend(st: Scan, xs: seq<Piece>, ys: seq<Piece>)
    ensures Run(st, xs + ys) == Run(Run(st, xs), ys)
  {
    if ys == [] {
      assert xs + ys == xs;
    } else {
      var init := ys[..|ys| - 1];
      var last := ys[|ys| - 1];
      RunAppend(st, xs, init);
      assert xs + ys == (xs + init) + [last];
      RunSnoc(st, xs + init, last);
    }
  }

  /** Plain items before the first field leave the scanner where it started. */
  lemma {:induction false} RunPlain(pre: seq<Piece>)
    requires forall i :: 0 <= i < |pre| ==> pre[i].Plain?
    ensures Run(Start, pre) == Start
  {
    if pre != [] {
      RunPlain(pre[..|pre| - 1]);
    }
  }

  /** Plain items (those without a ':') before the first field are dropped. */
  lemma DropsLeading(pre: seq<Piece>, rest: seq<Piece>)
    requires forall i :: 0 <= i < |pre| ==> pre[i].Plain?
    ensures ParsePieces(pre + rest) == ParsePieces(rest)
  {
    RunPlain(pre);
    RunAppend(Start, pre, rest);
  }

  function Texts(ps: seq<Piece>): (r: seq<string>)
    requires forall i :: 0 <= i < |ps| ==> ps[i].Plain?
    ensures |r| == |ps| && forall i :: 0 <= i < |ps| ==> r[i] == ps[i].text
  {
    if ps == [] then [] else Texts(ps[..|ps| - 1]) + [ps[|ps| - 1].text]
  }

  /** Plain items after a named field are appended to its values, in order. */
  lemma {:induction false} RunContinue(st: Scan, conts: seq<Piece>)
    requires st.field != []
    requires forall i :: 0 <= i < |conts| ==> conts[i].Plain?
    ensures Run(st, conts) == Scan(st.field, st.values + Texts(conts), st.dict)
  {
    if conts != [] {
      RunContinue(st, conts[..|conts| - 1]);
      assert st.values + Texts(conts) == st.values + Texts(conts[..|conts| - 1]) + [conts[|conts| - 1].text];
    }
  }

  /**
   * The last field opened wins: its key maps to its own value followed by
   * the plain items after it, joined with ", ", whatever came before (an
   * earlier field of the same name is overwritten).
   */
  lemma LastFieldWins(pre: seq<Piece>, p: Piece, conts: seq<Piece>)
    requires Named(p)
    requires forall i :: 0 <= i < |conts| ==> conts[i].Plain?
    ensures ParsePieces(pre + [p] + conts).Some?
    ensures Get(ParsePieces(pre + [p] + conts).value, p.key) == Some(Join(", ", [p.value] + Texts(conts)))
  {
    var st := Scan(p.key, [p.value], Flush(Run(Start, pre)));
    RunSnoc(Start, pre, p);
    assert Run(Start, pre + [p]) == st;
    RunAppend(Start, pre + [p], conts);
    RunContinue(st, conts);
    FlushNamed(Run(Start, pre + [p] + conts));
  }

  /** Flushing a scan with a named field and values saves the joined values under that name. */
  lemma FlushNamed(st: Scan)
    requires st.field != [] && st.values != []
    ensures Flush(st) != [] && Get(Flush(st), st.field) == Some(Join(", ", st.values))
  {
  }

  /** The result is `None` exactly when no item opens a field with a non-empty name. */
  lemma ParseNone(ps: seq<Piece>)
    ensures ParsePieces(ps).None? <==> forall i :: 0 <= i < |ps| ==> !Named(ps[i])
  {
    if forall i :: 0 <= i < |ps| ==> !Named(ps[i]) {
      RunUnnamed(ps);
    } else {
      var j :| 0 <= j < |ps| && Named(ps[j]);
      RunNamed(ps, j);
    }
  }

  lemma {:induction false} RunUnnamed(ps: seq<Piece>)
    requires forall i :: 0 <= i < |ps| ==> !Named(ps[i])
    ensures Run(Start, ps).field == [] && Run(Start, ps).dict == []
  {
    if ps != [] {
      RunUnnamed(ps[..|ps| - 1]);
    }
  }

  /** Once a named field has been opened, something is saved by the end. */
  lemma {:induction false} RunNamed(ps: seq<Piece>, j: nat)
    requires j < |ps| && Named(ps[j])
    ensures Flush(Run(Start, ps)) != []
  {
    var init := ps[..|ps| - 1];
    if j < |init| {
      RunNamed(init, j);
    }
  }

  /** A "Field: Value" item without whitespace at its ends opens the field `KeyOf(Field)` with value `Value`. */
  lemma ReadField(before: string, after: string)
    requires ':' !in before
    requires before == [] || (!IsSpace(before[0]) && !IsSpace(before[|before| - 1]))
    requires after != [] && !IsSpace(after[0]) && !IsSpace(after[|after| - 1])
    ensures Read(before + ": " + after) == Field(KeyOf(before), after)
  {
    var rest := " " + after;
    FieldItem(before, after);
    CharSplitAt(before, ':', rest);
    ReadSplit(before + ": " + after, before, rest);
    StripNoop(before);
    SpaceThen(after);
  }

  /** The item is the label, ':' and the rest, and has no whitespace at its ends. */
  lemma FieldItem(before: string, after: string)
    requires before == [] || (!IsSpace(before[0]) && !IsSpace(before[|before| - 1]))
    requires after != [] && !IsSpace(after[0]) && !IsSpace(after[|after| - 1])
    ensures before + ": " + after == before + [':'] + (" " + after)
    ensures Strip(before + ": " + after) == before + ": " + after
  {
    var item := before + ": " + after;
    assert item[|item| - 1] == after[|after| - 1];
    assert item[0] == if before == [] then ':' else before[0];
    StripNoop(item);
  }

  /** An item already stripped whose first ':' splits it into `a` and `b` opens the field named by `a`. */
  lemma ReadSplit(item: string, a: string, b: string)
    requires Strip(item) == item && CharSplit(item, ':') == Some((a, b))
    ensures Read(item) == Field(KeyOf(Strip(a)), Strip(b))
  {
  }

  /** One leading space is stripped away from a trimmed text. */
  lemma SpaceThen(after: string)
    requires after != [] && !IsSpace(after[0]) && !IsSpace(after[|after| - 1])
    ensures Strip(" " + after) == after
  {
    assert (" " + after)[1..] == after;
    assert LStrip(" " + after) == LStrip(after);
    StripNoop(after);
  }

  /** A colon-free item without whitespace at its ends is plain text, itself. */
  lemma ReadPlainItem(item: string)
    requires ':' !in item
    requires item == [] || (!IsSpace(item[0]) && !IsSpace(item[|item| - 1]))
    ensures Read(item) == Plain(item)
  {
    StripNoop(item);
    CharSplitSpec(item, ':');
  }

  /** Trimmed, with no ':' (and so a valid field label) and no ',' (so the split keeps it whole). */
  predicate Label(k: string) {
    ':' !in k && ',' !in k && (k == [] || (!IsSpace(k[0]) && !IsSpace(k[|k| - 1])))
  }

  /**
   * The shape of the example in the scraper's documentation,
   * "Country: US, State: FL, County: Okaloosa, Walton, Santa Rosa": three
   * fields with distinct names, the last one followed by two colon-free
   * items, which are appended to its value.
   */
  lemma DocumentedExample(k1: string, v1: string, k2: string, v2: string, k3: string, v3: string, w1: string, w2: string)
    requires Label(k1) && Label(k2) && Label(k3) && Label(w1) && Label(w2)
    requires v1 != [] && v2 != [] && v3 != []
    requires Label(v1) && Label(v2) && Label(v3)
    requires KeyOf(k1) != [] && KeyOf(k2) != [] && KeyOf(k3) != []
    requires KeyOf(k1) != KeyOf(k2) && KeyOf(k1) != KeyOf(k3) && KeyOf(k2) != KeyOf(k3)
    ensures ParseLocation(Join(", ", [k1 + ": " + v1, k2 + ": " + v2, k3 + ": " + v3, w1, w2]))
         == Some([Item(KeyOf(k1), v1), Item(KeyOf(k2), v2), Item(KeyOf(k3), v3 + ", " + w1 + ", " + w2)])
  {
    ExampleSplit(k1, v1, k2, v2, k3, v3, w1, w2);
    ExampleFields(k1, v1, k2, v2, k3, v3);
    ReadPlainItem(w1);
    ReadPlainItem(w2);
    ExampleParse(k1, v1, k2, v2, k3, v3, w1, w2, Field(KeyOf(k1), v1), Field(KeyOf(k2), v2), Field(KeyOf(k3), v3));
    ThreeFields(KeyOf(k1), v1, KeyOf(k2), v2, KeyOf(k3), v3, w1, w2);
  }

  /** The five items of the example come back from the split of their join. */
  lemma ExampleSplit(k1: string, v1: string, k2: string, v2: string, k3: string, v3: string, w1: string, w2: string)
    requires Label(k1) && Label(k2) && Label(k3) && Label(w1) && Label(w2)
    requires Label(v1) && Label(v2) && Label(v3)
    ensures var items := [k1 + ": " + v1, k2 + ": " + v2, k3 + ": " + v3, w1, w2];
      Split(Join(", ", items), ", ") == items
  {
    var items := [k1 + ": " + v1, k2 + ": " + v2, k3 + ": " + v3, w1, w2];
    NoComma(k1, v1);
    NoComma(k2, v2);
    NoComma(k3, v3);
    SplitJoin(", ", items);
  }

  /** The three "Field: Value" items of the example open their fields. */
  lemma ExampleFields(k1: string, v1: string, k2: string, v2: string, k3: string, v3: string)
    requires Label(k1) && Label(k2) && Label(k3)
    requires v1 != [] && v2 != [] && v3 != []
    requires Label(v1) && Label(v2) && Label(v3)
    ensures Read(k1 + ": " + v1) == Field(KeyOf(k1), v1)
    ensures Read(k2 + ": " + v2) == Field(KeyOf(k2), v2)
    ensures Read(k3 + ": " + v3) == Field(KeyOf(k3), v3)
  {
    ReadField(k1, v1);
    ReadField(k2, v2);
    ReadField(k3, v3);
  }

  /** Once the split and the reading of each item are known, the result is the scan of the pieces. */
  lemma ExampleParse(k1: string, v1: string, k2: string, v2: string, k3: string, v3: string, w1: string, w2: string,
                     x: Piece, y: Piece, z: Piece)
    requires var items := [k1 + ": " + v1, k2 + ": " + v2, k3 + ": " + v3, w1, w2];
      Split(Join(", ", items), ", ") == items
    requires Read(k1 + ": " + v1) == x && Read(k2 + ": " + v2) == y && Read(k3 + ": " + v3) == z
    requires Read(w1) == Plain(w1) && Read(w2) == Plain(w2)
    ensures ParseLocation(Join(", ", [k1 + ": " + v1, k2 + ": " + v2, k3 + ": " + v3, w1, w2]))
         == ParsePieces([x, y, z, Plain(w1), Plain(w2)])
  {
    ReadsFive(k1 + ": " + v1, k2 + ": " + v2, k3 + ": " + v3, w1, w2, [x, y, z, Plain(w1), Plain(w2)]);
  }

  lemma ReadsFive(a: string, b: string, c: string, d: string, e: string, ps: seq<Piece>)
    requires |ps| == 5 && ps[0] == Read(a) && ps[1] == Read(b) && ps[2] == Read(c) && ps[3] == Read(d) && ps[4] == Read(e)
    ensures Reads([a, b, c, d, e]) == ps
  {
    var items := [a, b, c, d, e];
    forall j | 0 <= j < 5 ensures ps[j] == Read(items[j]) {
      if j == 0 { } else if j == 1 { } else if j == 2 { } else if j == 3 { } else { }
    }
    ReadsIs(items, ps);
  }

  lemma NoComma(k: string, v: string)
    requires ',' !in k && ',' !in v
    ensures ',' !in k + ": " + v
  {
    assert k + ": " + v == k + [':', ' '] + v;
  }

  /** The scanner over three distinct fields and two continuations of the last. */
  lemma ThreeFields(a: string, va: string, b: string, vb: string, c: string, vc: string, w1: string, w2: string)
    requires a != [] && b != [] && c != [] && a != b && a != c && b != c
    ensures ParsePieces([Field(a, va), Field(b, vb), Field(c, vc), Plain(w1), Plain(w2)])
         == Some([Item(a, va), Item(b, vb), Item(c, vc + ", " + w1 + ", " + w2)])
  {
    var p0, p1, p2, p3, p4 := Field(a, va), Field(b, vb), Field(c, vc), Plain(w1), Plain(w2);
    var d2 := [Item(a, va), Item(b, vb)];
    var s3 := Scan(c, [vc], d2);
    TwoFields(a, va, b, vb, c, vc);
    ContinueTwo([p0, p1, p2], s3, w1, w2);
    assert [p0, p1, p2] + [p3, p4] == [p0, p1, p2, p3, p4];
    JoinThree(vc, w1, w2);
    assert c !in Keys(d2) by {
      KeysSnoc<string>([], Item(a, va));
      KeysSnoc([Item(a, va)], Item(b, vb));
      assert [Item(a, va)] + [Item(b, vb)] == d2;
    }
    assert d2 + [Item(c, vc + ", " + w1 + ", " + w2)] == [Item(a, va), Item(b, vb), Item(c, vc + ", " + w1 + ", " + w2)];
  }

  lemma ContinueTwo(pre: seq<Piece>, st: Scan, w1: string, w2: string)
    requires Run(Start, pre) == st && st.field != [] && |st.values| == 1
    ensures Run(Start, pre + [Plain(w1), Plain(w2)]) == Scan(st.field, [st.values[0], w1, w2], st.dict)
  {
    RunContinue(st, [Plain(w1), Plain(w2)]);
    RunAppend(Start, pre, [Plain(w1), Plain(w2)]);
    assert st.values + Texts([Plain(w1), Plain(w2)]) == [st.values[0], w1, w2];
  }

  lemma JoinThree(x: string, y: string, z: string)
    ensures Join(", ", [x, y, z]) == x + ", " + y + ", " + z
  {
    assert Join(", ", [y, z]) == y + ", " + z by {
      assert [y, z][1..] == [z];
    }
    assert [x, y, z][1..] == [y, z];
    assert Join(", ", [x, y, z]) == x + ", " + (y + ", " + z);
    assert x + ", " + (y + ", " + z) == x + ", " + y + ", " + z;
  }

  /** Two distinct fields are saved in order when a third one opens. */
  lemma TwoFields(a: string, va: string, b: string, vb: string, c: string, vc: string)
    requires a != [] && b != [] && a != b
    ensures Run(Start, [Field(a, va), Field(b, vb), Field(c, vc)]) == Scan(c, [vc], [Item(a, va), Item(b, vb)])
  {
    var p0, p1, p2 := Field(a, va), Field(b, vb), Field(c, vc);
    var d1 := [Item(a, va)];
    var d2 := d1 + [Item(b, vb)];
    var s1 := Scan(a, [va], []);
    var s2 := Scan(b, [vb], d1);
    assert Run(Start, [p0]) == s1 by {
      RunSnoc(Start, [], p0);
    }
    assert Flush(s1) == d1 by {
      assert Join(", ", [va]) == va;
      assert a !in Keys<string>([]);
    }
    assert Run(Start, [p0, p1]) == s2 by {
      RunSnoc(Start, [p0], p1);
    }
    assert Flush(s2) == d2 by {
      assert Join(", ", [vb]) == vb;
      KeysSnoc<string>([], Item(a, va));
    }
    RunSnoc(Start, [p0, p1], p2);
    assert [p0, p1] + [p2] == [p0, p1, p2];
    assert d2 == [Item(a, va), Item(b, vb)];
  }

  // ---------------------------------------------------------------------------
  // The item rule of _extract_location_structure
  // ---------------------------------------------------------------------------

  /** The (field, value) pair a list item's text gives, when both sides of its first ':' are non-empty. */
  function ItemPair(raw: string): (r: Option<Item<string>>)
    ensures r.Some? ==> IsKey(r.value.key)
    ensures r.Some? ==> r.value.value != [] && !IsSpace(r.value.value[0]) && !IsSpace(r.value.value[|r.value.value| - 1])
  {
    match CharSplit(Strip(raw), ':')
    case Some(parts) =>
      var field := Strip(parts.0);
      var value := Strip(parts.1);
      if field != [] && value != [] then
        var k := KeyOf(field);
        assert IsKey(k);
        Some(Item(k, value))
      else None
    case None => None
  }

  /** `location_dict` after the items, one after another. */
  function StructureRun(texts: seq<string>): Dict<string> {
    if texts == [] then []
    else
      var d := StructureRun(texts[..|texts| - 1]);
      match ItemPair(texts[|texts| - 1])
      case Some(p) => Put(d, p.key, p.value)
      case None => d
  }

  /** The pairs the items give, in order. */
  function Pairs(texts: seq<string>): (r: seq<Item<string>>)
    ensures forall i :: 0 <= i < |r| ==> IsKey(r[i].key) && r[i].value != []
  {
    if texts == [] then []
    else
      var ps := Pairs(texts[..|texts| - 1]);
      match ItemPair(texts[|texts| - 1])
      case Some(p) => ps + [p]
      case None => ps
  }

  /** The loop over the list items of `_extract_location_structure`. */
  method LocationStructure(texts: seq<string>) returns (r: Option<Dict<string>>)
    ensures r == (if StructureRun(texts) == [] then None else Some(StructureRun(texts)))
  {
    var dict: Dict<string> := [];
    var i := 0;
    while i < |texts|
      invariant 0 <= i <= |texts|
      invariant dict == StructureRun(texts[..i])
    {
      var text := Strip(texts[i]);
      match CharSplit(text, ':') {
        case Some(parts) =>
          var field := Strip(parts.0);
          var value := Strip(parts.1);
          if field != [] && value != [] {
            dict := Put(dict, KeyOf(field), value);
          }
        case None =>
      }
      assert texts[..i + 1][..i] == texts[..i];
      i := i + 1;
    }
    assert texts[..i] == texts;
    r := if dict == [] then None else Some(dict);
  }

  /** The loop builds `dict(pairs)`: each key once, with the value of its last item. */
  lemma {:induction false} StructureIsDict(texts: seq<string>)
    ensures StructureRun(texts) == FromItems(Pairs(texts))
  {
    if texts != [] {
      var init := texts[..|texts| - 1];
      StructureIsDict(init);
      var ps := Pairs(init);
      match ItemPair(texts[|texts| - 1])
      case Some(p) =>
        assert (ps + [p])[..|ps|] == ps;
      case None =>
    }
  }

  /** Every key is a normalised field name and every value a non-empty stripped text; `None` exactly when no item gives a pair. */
  lemma StructureShape(texts: seq<string>)
    ensures DistinctKeys(StructureRun(texts))
    ensures forall i :: 0 <= i < |StructureRun(texts)| ==> IsKey(StructureRun(texts)[i].key) && StructureRun(texts)[i].value != []
    ensures StructureRun(texts) == [] <==> Pairs(texts) == []
  {
    StructureIsDict(texts);
    FromItemsKeys(Pairs(texts));
    var d := StructureRun(texts);
    forall i | 0 <= i < |d| ensures IsKey(d[i].key) && d[i].value != [] {
      assert d[i] in Pairs(texts);
    }
    if Pairs(texts) != [] {
      assert Pairs(texts)[0].key in Keys(Pairs(texts));
    }
  }

  /** The value of a key is the one its last item gives. */
  lemma StructureLastWins(texts: seq<string>, i: nat)
    requires i < |Pairs(texts)|
    requires forall j :: i < j < |Pairs(texts)| ==> Pairs(texts)[j].key != Pairs(texts)[i].key
    ensures Get(StructureRun(texts), Pairs(texts)[i].key) == Some(Pairs(texts)[i].value)
  {
    StructureIsDict(texts);
    FromItemsGet(Pairs(texts), i);
  }
}
