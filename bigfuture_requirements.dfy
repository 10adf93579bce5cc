/**
 * `_extract_requirements` of the BigFuture detail scraper.  The page body is
 * cut into lines; after the first line that is exactly "Requirements" once
 * stripped, at most 19 lines are read, up to the next section word, and the
 * stripped lines that look like requirements are kept.  When that gives
 * nothing, the texts of the page's list items are tried instead.  Repeated
 * entries are then dropped, keeping the first of each.
 */
module Requirements {
  import opened Wrappers
  import opened Text
  import StringOrder

  /** The lines that end the list: the next section of the page. */
  predicate IsSectionWord(line: string) {
    line == "Details" || line == "Expand All" || line == "Collapse All"
    || line == "Pursued Degree Level" || line == "Next Steps"
  }

  /** A stripped line kept as a requirement. */
  predicate Keep(line: string) {
    line != [] && |line| > 3 && !StartsWith(line, "*") && !StartsWith(line, "•")
  }

  /** What the text path keeps of the lines `ws`, read up to the first section word. */
  function Collect(ws: seq<string>): (r: seq<string>)
    ensures |r| <= |ws|
    decreases |ws|
  {
    if ws == [] || IsSectionWord(Strip(ws[0])) then []
    else (if Keep(Strip(ws[0])) then [Strip(ws[0])] else []) + Collect(ws[1..])
  }

  const ListKeywords: seq<string> := ["Resident", "Attend", "Student", "Seeking", "Studying", "Degree", "Grade"]

  /** The stripped text of a list item taken as a requirement. */
  predicate ListRequirement(t: string) {
    t != [] && 5 < |t| < 200 && !StartsWith(t, "http") && AnyIn(ListKeywords, t)
  }

  /** What the list-item fallback keeps of the item texts, in order. */
  function ListItems(texts: seq<string>): (r: seq<string>)
    ensures |r| <= |texts|
  {
    if texts == [] then []
    else (if ListRequirement(Strip(texts[0])) then [Strip(texts[0])] else []) + ListItems(texts[1..])
  }

  /** `list(dict.fromkeys(xs))`: each string once, where it first occurs. */
  function Dedup(xs: seq<string>): seq<string> {
    if xs == [] then []
    else
      var d := Dedup(xs[..|xs| - 1]);
      if xs[|xs| - 1] in d then d else d + [xs[|xs| - 1]]
  }

  /** The requirements of the text path: nothing when there is no "Requirements" line. */
  function TextRequirements(lines: seq<string>): seq<string> {
    match FindLine(lines, "Requirements", 0)
    case None => []
    case Some(r) => Collect(Window(lines, r + 1, r + 20))
  }

  /** What `_extract_requirements` returns for the lines of the body and the list-item texts. */
  function RequirementsOf(lines: seq<string>, itemTexts: seq<string>): Option<seq<string>> {
    var found := TextRequirements(lines);
    var reqs := if found == [] then ListItems(itemTexts) else found;
    var d := Dedup(reqs);
    if d == [] then None else Some(d)
  }

  // ---------------------------------------------------------------------------
  // The loops
  // ---------------------------------------------------------------------------

  /** `_extract_requirements` on the page body; `None` when there is no body. */
  method ExtractRequirements(body: Option<string>, itemTexts: seq<string>) returns (r: Option<seq<string>>)
    ensures body.None? ==> r.None?
    ensures body.Some? ==> r == RequirementsOf(Split(body.value, "\n"), itemTexts)
  {
    if body.None? {
      return None;
    }
    var lines := Split(body.value, "\n");
    var requirements: seq<string> := [];
    var found := LineIndex(lines, "Requirements");
    if found.Some? {
      requirements := ReadRequirements(Window(lines, found.value + 1, found.value + 20));
    }
    if requirements == [] {
      requirements := ReadListItems(itemTexts);
    }
    var unique := Dedup(requirements);
    r := if unique == [] then None else Some(unique);
  }

  /** The loop over the lines after "Requirements", with its `break`. */
  method ReadRequirements(ws: seq<string>) returns (acc: seq<string>)
    ensures acc == Collect(ws)
  {
    acc := [];
    var k := 0;
    while k < |ws|
      invariant k <= |ws|
      invariant Collect(ws) == acc + Collect(ws[k..])
    {
      CollectAt(ws, k);
      var line := Strip(ws[k]);
      if IsSectionWord(line) {
        break;
      }
      if Keep(line) {
        acc := acc + [line];
      }
      k := k + 1;
    }
  }

  lemma CollectAt(ws: seq<string>, k: nat)
    requires k < |ws|
    ensures IsSectionWord(Strip(ws[k])) ==> Collect(ws[k..]) == []
    ensures !IsSectionWord(Strip(ws[k])) ==>
      Collect(ws[k..]) == (if Keep(Strip(ws[k])) then [Strip(ws[k])] else []) + Collect(ws[k + 1..])
  {
    assert ws[k..][0] == ws[k] && ws[k..][1..] == ws[k + 1..];
  }

  /** The loop over the list items. */
  method ReadListItems(texts: seq<string>) returns (acc: seq<string>)
    ensures acc == ListItems(texts)
  {
    acc := [];
    for k := 0 to |texts|
      invariant ListItems(texts) == acc + ListItems(texts[k..])
    {
      ListItemsAt(texts, k);
      var text := Strip(texts[k]);
      if ListRequirement(text) {
        assert acc + ([text] + ListItems(texts[k + 1..])) == (acc + [text]) + ListItems(texts[k + 1..]);
        acc := acc + [text];
      } else {
        assert [] + ListItems(texts[k + 1..]) == ListItems(texts[k + 1..]);
      }
    }
  }

  lemma ListItemsAt(texts: seq<string>, k: nat)
    requires k < |texts|
    ensures ListItems(texts[k..])
      == (if ListRequirement(Strip(texts[k])) then [Strip(texts[k])] else []) + ListItems(texts[k + 1..])
  {
    assert texts[k..][0] == texts[k] && texts[k..][1..] == texts[k + 1..];
  }

  // ---------------------------------------------------------------------------
  // dict.fromkeys
  // ---------------------------------------------------------------------------

  /** The position where `x` first occurs in `xs`. */
  function FirstAt(xs: seq<string>, x: string): (i: nat)
    requires x in xs
    ensures i < |xs| && xs[i] == x
    ensures forall j :: 0 <= j < i ==> xs[j] != x
  {
    if xs[0] == x then 0 else 1 + FirstAt(xs[1..], x)
  }

  lemma {:induction false} FirstAtSnoc(xs: seq<string>, y: string, x: string)
    requires x in xs
    ensures FirstAt(xs + [y], x) == FirstAt(xs, x)
  {
    var i := FirstAt(xs, x);
    var e := xs + [y];
    assert e[i] == x;
    assert forall j :: 0 <= j < i ==> e[j] == xs[j];
  }

  /**
   * `dict.fromkeys` keeps exactly the strings of `xs`, each once, in the
   * order of their first occurrences.
   */
  lemma {:induction false} DedupSpec(xs: seq<string>)
    ensures forall x :: x in Dedup(xs) <==> x in xs
    ensures StringOrder.Distinct(Dedup(xs))
    ensures forall i, j :: 0 <= i < j < |Dedup(xs)| ==> FirstAt(xs, Dedup(xs)[i]) < FirstAt(xs, Dedup(xs)[j])
  {
    if xs != [] {
      var init, last := xs[..|xs| - 1], xs[|xs| - 1];
      assert xs == init + [last];
      DedupSpec(init);
      var d := Dedup(init);
      forall y | y in init ensures FirstAt(xs, y) == FirstAt(init, y) && FirstAt(xs, y) < |init| {
        FirstAtSnoc(init, last, y);
      }
      if last !in d {
        var r := d + [last];
        assert FirstAt(xs, last) == |init| by {
          assert forall j :: 0 <= j < |init| ==> xs[j] == init[j];
        }
        forall i, j | 0 <= i < j < |r| ensures FirstAt(xs, r[i]) < FirstAt(xs, r[j]) {
          if j < |d| {
            assert r[i] == d[i] && r[j] == d[j];
          } else {
            assert r[i] == d[i] && r[i] in init;
          }
        }
      }
    }
  }

  /** The first string of `xs` comes first. */
  lemma {:induction false} DedupHead(xs: seq<string>)
    requires xs != []
    ensures Dedup(xs) != [] && Dedup(xs)[0] == xs[0]
  {
    DedupSpec(xs);
    var d := Dedup(xs);
    assert xs[0] in d;
    assert FirstAt(xs, xs[0]) == 0;
    forall j | 0 < j < |d| ensures d[j] != xs[0] {
      assert FirstAt(xs, d[0]) < FirstAt(xs, d[j]);
    }
  }

  /** A list without repeats is returned as it is. */
  lemma {:induction false} DedupDistinct(xs: seq<string>)
    requires StringOrder.Distinct(xs)
    ensures Dedup(xs) == xs
  {
    if xs != [] {
      var init, last := xs[..|xs| - 1], xs[|xs| - 1];
      assert StringOrder.Distinct(init) by {
        assert forall i :: 0 <= i < |init| ==> init[i] == xs[i];
      }
      DedupDistinct(init);
      assert last !in init by {
        assert forall i :: 0 <= i < |init| ==> init[i] == xs[i];
      }
      assert xs == init + [last];
    }
  }

  // ---------------------------------------------------------------------------
  // What the scanner promises
  // ---------------------------------------------------------------------------

  /** Each kept line is a stripped line of `ws`, passes the filter, and precedes any section word. */
  lemma {:induction false} CollectKeeps(ws: seq<string>)
    ensures forall x :: x in Collect(ws) ==> Keep(x) && Strip(x) == x
    ensures forall x :: x in Collect(ws) ==> exists j :: 0 <= j < |ws| && x == Strip(ws[j])
    decreases |ws|
  {
    if ws != [] && !IsSectionWord(Strip(ws[0])) {
      CollectKeeps(ws[1..]);
      StripIdempotent(ws[0]);
      forall x | x in Collect(ws[1..]) ensures exists j :: 0 <= j < |ws| && x == Strip(ws[j]) {
        var j :| 0 <= j < |ws[1..]| && x == Strip(ws[1..][j]);
        assert ws[j + 1] == ws[1..][j];
      }
    }
  }

  /** Each list-item requirement is a stripped item text that passes the filter. */
  lemma {:induction false} ListItemsKeep(texts: seq<string>)
    ensures forall x :: x in ListItems(texts) ==> ListRequirement(x) && Strip(x) == x
    decreases |texts|
  {
    if texts != [] {
      ListItemsKeep(texts[1..]);
      StripIdempotent(texts[0]);
    }
  }

  /** Nothing from the first section word on is read. */
  lemma {:induction false} CollectStops(w1: seq<string>, s: string, w2: seq<string>)
    requires forall j :: 0 <= j < |w1| ==> !IsSectionWord(Strip(w1[j]))
    requires IsSectionWord(Strip(s))
    ensures Collect(w1 + [s] + w2) == Collect(w1)
    decreases |w1|
  {
    var ws := w1 + [s] + w2;
    if w1 == [] {
      assert ws[0] == s;
    } else {
      assert ws[0] == w1[0] && ws[1..] == w1[1..] + [s] + w2;
      forall j | 0 <= j < |w1| - 1 ensures !IsSectionWord(Strip(w1[1..][j])) {
        assert w1[1..][j] == w1[j + 1];
      }
      CollectStops(w1[1..], s, w2);
    }
  }

  /**
   * The list `_extract_requirements` returns is non-empty and has no repeats;
   * each entry is stripped and is either a line of the text path or a list
   * item that passes the fallback's filter; the text path reads at most 19
   * lines after the "Requirements" line.
   */
  lemma RequirementsShape(lines: seq<string>, itemTexts: seq<string>, d: seq<string>)
    requires RequirementsOf(lines, itemTexts) == Some(d)
    ensures d != [] && StringOrder.Distinct(d)
    ensures forall x :: x in d ==> Strip(x) == x && (Keep(x) || ListRequirement(x))
    ensures |TextRequirements(lines)| <= 19
  {
    var found := TextRequirements(lines);
    var reqs := if found == [] then ListItems(itemTexts) else found;
    DedupSpec(reqs);
    if FindLine(lines, "Requirements", 0).Some? {
      var r := FindLine(lines, "Requirements", 0).value;
      CollectKeeps(Window(lines, r + 1, r + 20));
    }
    ListItemsKeep(itemTexts);
  }

  /** The list items are consulted only when the text path keeps nothing. */
  lemma TextPathWins(lines: seq<string>, items1: seq<string>, items2: seq<string>)
    requires TextRequirements(lines) != []
    ensures RequirementsOf(lines, items1) == RequirementsOf(lines, items2)
  {
  }

  /**
   * When the line after "Requirements" is a requirement, it is the first
   * entry of the result.
   */
  lemma FirstRequirement(lines: seq<string>, itemTexts: seq<string>, r: nat)
    requires FindLine(lines, "Requirements", 0) == Some(r) && r + 1 < |lines|
    requires !IsSectionWord(Strip(lines[r + 1])) && Keep(Strip(lines[r + 1]))
    ensures RequirementsOf(lines, itemTexts).Some?
    ensures RequirementsOf(lines, itemTexts).value[0] == Strip(lines[r + 1])
  {
    TextFirst(lines, r);
    TextHead(lines, itemTexts);
  }

  lemma TextFirst(lines: seq<string>, r: nat)
    requires FindLine(lines, "Requirements", 0) == Some(r) && r + 1 < |lines|
    requires !IsSectionWord(Strip(lines[r + 1])) && Keep(Strip(lines[r + 1]))
    ensures TextRequirements(lines) != [] && TextRequirements(lines)[0] == Strip(lines[r + 1])
  {
    TextAt(lines, r);
    WindowCollectHead(lines, r + 1, r + 20);
  }

  lemma WindowCollectHead(lines: seq<string>, lo: nat, hi: nat)
    requires lo < hi && lo < |lines|
    requires !IsSectionWord(Strip(lines[lo])) && Keep(Strip(lines[lo]))
    ensures Collect(Window(lines, lo, hi)) != []
    ensures Collect(Window(lines, lo, hi))[0] == Strip(lines[lo])
  {
    WindowHead(lines, lo, hi);
    CollectHead(Window(lines, lo, hi));
  }

  /** A non-empty text scan decides the result, and its first entry leads it. */
  lemma TextHead(lines: seq<string>, itemTexts: seq<string>)
    requires TextRequirements(lines) != []
    ensures RequirementsOf(lines, itemTexts).Some?
    ensures RequirementsOf(lines, itemTexts).value[0] == TextRequirements(lines)[0]
  {
    DedupHead(TextRequirements(lines));
  }

  lemma TextAt(lines: seq<string>, r: nat)
    requires FindLine(lines, "Requirements", 0) == Some(r)
    ensures TextRequirements(lines) == Collect(Window(lines, r + 1, r + 20))
  {
  }

  lemma CollectHead(ws: seq<string>)
    requires ws != [] && !IsSectionWord(Strip(ws[0])) && Keep(Strip(ws[0]))
    ensures Collect(ws) != [] && Collect(ws)[0] == Strip(ws[0])
  {
  }
}
