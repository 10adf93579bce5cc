/**
 * `_extract_details_fallback` of the BigFuture detail scraper: the page
 * body is cut into lines; after the first line that is "Details" the
 * scanner reads at most 49 lines, stopping at the next section, and files
 * the lines under five known category headers.  Under "Location" only lines
 * that name a place and nothing else are kept.
 */
module Details {
  import opened Wrappers
  import opened Text
  import opened Dicts

  const LocationKeywords: seq<string> := ["Country", "State", "County", "City", "Region", "Zip", "Postal"]

  const NonLocationKeywords: seq<string> :=
    ["GPA", "Activities", "Community Service", "Extracurricular", "Leadership", "Affiliations", "ROTC", "Essay", "Merit", "Need"]

  const CategoryHeaders: seq<string> :=
    ["Pursued Degree Level", "Current Grade", "Location", "Current School", "Intended Area of Study"]

  /** The lines that end the section. */
  predicate IsStop(line: string) {
    line == "Next Steps" || line == "Match With Scholarships" || line == "See All Scholarships"
  }

  /** The accordion buttons, skipped. */
  predicate IsControl(line: string) {
    line == "Expand All" || line == "Collapse All"
  }

  predicate IsHeader(line: string) {
    line == "Pursued Degree Level" || line == "Current Grade" || line == "Location"
    || line == "Current School" || line == "Intended Area of Study"
  }

  /** A line that names a place and nothing that is not one. */
  predicate LocationLine(line: string) {
    AnyIn(LocationKeywords, line) && !AnyIn(NonLocationKeywords, line)
  }

  /** Whether a (stripped, non-header) line is taken as a value of `category`. */
  predicate Accepts(category: string, line: string) {
    if category == "Location" then LocationLine(line) && |line| > 2
    else line != "Country:" && line != "State:" && !AnyIn(CategoryHeaders, line) && |line| > 2
  }

  /**
   * The scanner's variables `current_category`, `current_values` and
   * `details`; a category of `None` is written "" (every header is non-empty).
   */
  datatype Acc = Acc(category: string, values: seq<string>, details: Dict<string>)

  const Start: Acc := Acc([], [], [])

  /** Filing the category being collected, when it has values, under its normalised name. */
  function Save(a: Acc): Dict<string> {
    if a.category != [] && a.values != [] then Put(a.details, KeyOf(a.category), Join(", ", a.values)) else a.details
  }

  /** One line of the section that is not a stop line. */
  function Step(a: Acc, raw: string): Acc {
    var line := Strip(raw);
    if IsControl(line) then a
    else if IsHeader(line) then Acc(line, [], Save(a))
    else if a.category != [] && Accepts(a.category, line) then Acc(a.category, a.values + [line], a.details)
    else a
  }

  /** The scanner from state `a` over the lines `ws`, up to the first stop line. */
  function Scan(a: Acc, ws: seq<string>): Acc
    decreases |ws|
  {
    if ws == [] || IsStop(Strip(ws[0])) then a else Scan(Step(a, ws[0]), ws[1..])
  }

  /** The 49 lines after the line at `d`, or fewer at the end of the page. */
  function DetailsWindow(lines: seq<string>, d: nat): seq<string> {
    Window(lines, d + 1, d + 50)
  }

  /** What `_extract_details_fallback` returns for the lines of the page body. */
  function DetailsOf(lines: seq<string>): Option<Dict<string>> {
    match FindLine(lines, "Details", 0)
    case None => None
    case Some(d) => SectionDict(DetailsWindow(lines, d))
  }

  /** The dict filed from the lines after "Details"; `None` when it is empty. */
  function SectionDict(ws: seq<string>): Option<Dict<string>> {
    var dict := Save(Scan(Start, ws));
    if dict == [] then None else Some(dict)
  }

  /** `_extract_details_fallback` on the page body; `None` when there is no body. */
  method DetailsFallback(body: Option<string>) returns (r: Option<Dict<string>>)
    ensures body.None? ==> r.None?
    ensures body.Some? ==> r == DetailsOf(Split(body.value, "\n"))
  {
    if body.None? {
      return None;
    }
    var lines := Split(body.value, "\n");
    r := ScanDetails(lines);
  }

  /** The two loops of `_extract_details_fallback`: finding "Details", then reading the section. */
  method ScanDetails(lines: seq<string>) returns (r: Option<Dict<string>>)
    ensures r == DetailsOf(lines)
  {
    var found := LineIndex(lines, "Details");
    if found.None? {
      return None;
    }
    var d := found.value;
    var category, values, details := ReadSection(Window(lines, d + 1, d + 50));
    if category != [] && values != [] {
      details := Put(details, KeyOf(category), Join(", ", values));
    }
    r := if details == [] then None else Some(details);
  }

  /** The loop over the lines after "Details", until a stop line. */
  method ReadSection(ws: seq<string>) returns (category: string, values: seq<string>, details: Dict<string>)
    ensures Acc(category, values, details) == Scan(Start, ws)
  {
    category, values, details := [], [], [];
    var k := 0;
    while k < |ws|
      invariant k <= |ws|
      invariant Scan(Acc(category, values, details), ws[k..]) == Scan(Start, ws)
    {
      var line := Strip(ws[k]);
      if IsStop(line) {
        break;
      }
      assert ws[k..][0] == ws[k] && ws[k..][1..] == ws[k + 1..];
      category, values, details := ReadLine(category, values, details, ws[k], line);
      k := k + 1;
    }
  }

  /** The body of the loop for a line that is not a stop line: skip, open a category, or collect. */
  method ReadLine(category: string, values: seq<string>, details: Dict<string>, raw: string, line: string)
    returns (category': string, values': seq<string>, details': Dict<string>)
    requires line == Strip(raw)
    ensures Acc(category', values', details') == Step(Acc(category, values, details), raw)
  {
    category', values', details' := category, values, details;
    if IsControl(line) {
    } else if IsHeader(line) {
      if category != [] && values != [] {
        details' := Put(details, KeyOf(category), Join(", ", values));
      }
      category' := line;
      values' := [];
    } else if category != [] && Accepts(category, line) {
      values' := values + [line];
    }
  }

  // ---------------------------------------------------------------------------
  // What the section parser promises
  // ---------------------------------------------------------------------------

  const LocationKey: string := KeyOf("Location")

  /** A key the scanner can file a value under: one of the five headers, normalised. */
  ghost predicate HeaderKey(k: string) {
    exists h :: IsHeader(h) && k == KeyOf(h)
  }

  /**
   * A "location" value: the ", "-join of one or more kept lines, each naming
   * a place, naming nothing that is not one, and longer than two characters.
   */
  ghost predicate LocationValue(v: string) {
    exists ls: seq<string> :: LocationLines(ls) && v == Join(", ", ls)
  }

  /** Lines the scanner keeps under "Location": at least one, each a location line longer than two characters. */
  predicate LocationLines(ls: seq<string>) {
    ls != [] && forall j :: 0 <= j < |ls| ==> Accepts("Location", ls[j])
  }

  /** A location value contains none of the non-location keywords. */
  lemma LocationValueClean(v: string)
    requires LocationValue(v)
    ensures !AnyIn(NonLocationKeywords, v)
  {
    var ls :| LocationLines(ls) && v == Join(", ", ls);
    forall j | 0 <= j < |ls| ensures !AnyIn(NonLocationKeywords, ls[j]) {
      AcceptsLocation(ls[j]);
    }
    NoNonLocationJoin(ls);
  }

  /** A location value names a place: it contains one of the location keywords. */
  lemma LocationValueNamesPlace(v: string)
    requires LocationValue(v)
    ensures AnyIn(LocationKeywords, v)
  {
    var ls :| LocationLines(ls) && v == Join(", ", ls);
    AcceptsLocation(ls[0]);
    JoinEnds(", ", ls);
    AnyInPrefix(LocationKeywords, v, ls[0]);
  }

  ghost predicate GoodItem(it: Item<string>) {
    HeaderKey(it.key) && |it.value| > 2 && (it.key == LocationKey ==> LocationValue(it.value))
  }

  ghost predicate GoodDetails(d: Dict<string>) {
    DistinctKeys(d) && forall i :: 0 <= i < |d| ==> GoodItem(d[i])
  }

  /** The invariant of the scanner's variables. */
  ghost predicate Good(a: Acc) {
    (a.category == [] ==> a.values == [])
    && (a.category != [] ==> IsHeader(a.category))
    && (forall j :: 0 <= j < |a.values| ==> Accepts(a.category, a.values[j]))
    && GoodDetails(a.details)
  }

  lemma NonLocationCommaFree()
    ensures forall k :: 0 <= k < |NonLocationKeywords| ==> CommaFree(NonLocationKeywords[k])
  {
    forall k | 0 <= k < |NonLocationKeywords| ensures CommaFree(NonLocationKeywords[k]) {
      if k < 5 {
        assert k == 0 || k == 1 || k == 2 || k == 3 || k == 4;
      } else {
        assert k == 5 || k == 6 || k == 7 || k == 8 || k == 9;
      }
    }
  }

  /** Of the five headers only "Location" normalises to "location". */
  lemma LocationHeader(h: string)
    requires IsHeader(h) && KeyOf(h) == LocationKey
    ensures h == "Location"
  {
    assert |h| == |LocationKey| == 8;
  }

  /** Filing the collected values keeps every item good. */
  lemma SaveGood(a: Acc)
    requires Good(a)
    ensures GoodDetails(Save(a))
  {
    if a.category != [] && a.values != [] {
      SavedItemGood(a);
      PutGood(a.details, KeyOf(a.category), Join(", ", a.values));
    }
  }

  lemma SavedItemGood(a: Acc)
    requires Good(a) && a.category != [] && a.values != []
    ensures GoodItem(Item(KeyOf(a.category), Join(", ", a.values)))
  {
    JoinEnds(", ", a.values);
    assert |a.values[0]| > 2 by {
      assert Accepts(a.category, a.values[0]);
    }
    if KeyOf(a.category) == LocationKey {
      LocationHeader(a.category);
      LocationJoined(a.values);
    }
  }

  /** The values collected under "Location" join into a location value. */
  lemma LocationJoined(values: seq<string>)
    requires values != [] && forall j :: 0 <= j < |values| ==> Accepts("Location", values[j])
    ensures LocationValue(Join(", ", values))
  {
    assert LocationLines(values);
  }

  lemma AcceptsLocation(line: string)
    requires Accepts("Location", line)
    ensures LocationLine(line) && |line| > 2
  {
  }

  /** Lines without a non-location keyword join into a value without one. */
  lemma NoNonLocationJoin(values: seq<string>)
    requires forall i :: 0 <= i < |values| ==> !AnyIn(NonLocationKeywords, values[i])
    ensures !AnyIn(NonLocationKeywords, Join(", ", values))
  {
    NonLocationCommaFree();
    JoinNoKeyword(NonLocationKeywords, values);
  }

  lemma PutGood(d: Dict<string>, k: string, v: string)
    requires GoodDetails(d) && GoodItem(Item(k, v))
    ensures GoodDetails(Put(d, k, v))
  {
    var r := Put(d, k, v);
    forall i | 0 <= i < |r| ensures GoodItem(r[i]) {
      if r[i] != Item(k, v) {
        assert r[i] in d;
      }
    }
  }

  lemma StepGood(a: Acc, raw: string)
    requires Good(a)
    ensures Good(Step(a, raw))
  {
    var line := Strip(raw);
    if IsControl(line) {
    } else if IsHeader(line) {
      SaveGood(a);
    } else if a.category != [] && Accepts(a.category, line) {
      var b := Acc(a.category, a.values + [line], a.details);
      assert Step(a, raw) == b;
      assert forall j :: 0 <= j < |a.values| ==> b.values[j] == a.values[j];
      assert b.values[|a.values|] == line;
    }
  }

  lemma {:induction false} ScanKeepsGood(a: Acc, ws: seq<string>)
    requires Good(a)
    ensures Good(Scan(a, ws))
    decreases |ws|
  {
    if ws != [] && !IsStop(Strip(ws[0])) {
      StepGood(a, ws[0]);
      ScanKeepsGood(Step(a, ws[0]), ws[1..]);
    }
  }

  /**
   * The dict `_extract_details_fallback` returns is non-empty, has distinct
   * keys, each the normalised name of one of the five headers, with a value
   * of more than two characters; the "location" value is the ", "-join of
   * kept location lines (so it names a place and nothing that is not one:
   * `LocationValueNamesPlace`, `LocationValueClean`).
   */
  lemma DetailsShape(lines: seq<string>, d: Dict<string>)
    requires DetailsOf(lines) == Some(d)
    ensures d != [] && DistinctKeys(d)
    ensures forall i :: 0 <= i < |d| ==> HeaderKey(d[i].key) && |d[i].value| > 2
    ensures Get(d, LocationKey).Some? ==> LocationValue(Get(d, LocationKey).value)
  {
    var ws := DetailsWindow(lines, FindLine(lines, "Details", 0).value);
    ScanGood(ws);
    GoodMeans(d);
  }

  lemma GoodMeans(d: Dict<string>)
    requires GoodDetails(d)
    ensures DistinctKeys(d)
    ensures forall i :: 0 <= i < |d| ==> HeaderKey(d[i].key) && |d[i].value| > 2
    ensures Get(d, LocationKey).Some? ==> LocationValue(Get(d, LocationKey).value)
  {
    var g := Get(d, LocationKey);
    if g.Some? {
      var i :| 0 <= i < |d| && d[i] == Item(LocationKey, g.value);
      assert GoodItem(d[i]);
    }
  }

  lemma ScanGood(ws: seq<string>)
    ensures GoodDetails(Save(Scan(Start, ws)))
  {
    ScanKeepsGood(Start, ws);
    SaveGood(Scan(Start, ws));
  }

  /** The section ends at its first stop line: nothing after it is read. */
  lemma {:induction false} ScanStops(a: Acc, w1: seq<string>, s: string, w2: seq<string>)
    requires forall j :: 0 <= j < |w1| ==> !IsStop(Strip(w1[j]))
    requires IsStop(Strip(s))
    ensures Scan(a, w1 + [s] + w2) == Scan(a, w1)
    decreases |w1|
  {
    var ws := w1 + [s] + w2;
    if w1 == [] {
      assert ws[0] == s;
    } else {
      assert ws[0] == w1[0] && ws[1..] == w1[1..] + [s] + w2;
      forall j | 0 <= j < |w1| - 1 ensures !IsStop(Strip(w1[1..][j])) {
        assert w1[1..][j] == w1[j + 1];
      }
      ScanStops(Step(a, w1[0]), w1[1..], s, w2);
    }
  }

  /** "Expand All" and "Collapse All" lines change nothing. */
  lemma {:induction false} SkipControl(a: Acc, w1: seq<string>, c: string, w2: seq<string>)
    requires IsControl(Strip(c))
    ensures Scan(a, w1 + [c] + w2) == Scan(a, w1 + w2)
    decreases |w1|
  {
    var ws := w1 + [c] + w2;
    if w1 == [] {
      assert ws[0] == c && ws[1..] == w2;
      assert !IsStop(Strip(c));
      assert Step(a, c) == a;
      assert Scan(a, ws) == Scan(a, w2);
      assert w1 + w2 == w2;
    } else {
      assert ws[0] == w1[0] && ws[1..] == w1[1..] + [c] + w2;
      assert (w1 + w2)[0] == w1[0] && (w1 + w2)[1..] == w1[1..] + w2;
      if !IsStop(Strip(w1[0])) {
        SkipControl(Step(a, w1[0]), w1[1..], c, w2);
      }
    }
  }

  lemma {:induction false} FindLineExtend(lines: seq<string>, extra: seq<string>, w: string, i: nat)
    requires FindLine(lines, w, i).Some?
    ensures FindLine(lines + extra, w, i) == FindLine(lines, w, i)
    decreases |lines| - i
  {
    assert (lines + extra)[i] == lines[i];
    if Strip(lines[i]) != w {
      FindLineExtend(lines, extra, w, i + 1);
    }
  }

  /** The scanner reads nothing more than 49 lines past "Details". */
  lemma DetailsPrefix(lines: seq<string>, extra: seq<string>, d: nat)
    requires FindLine(lines, "Details", 0) == Some(d) && d + 50 <= |lines|
    ensures DetailsOf(lines + extra) == DetailsOf(lines)
  {
    SectionExtend(lines, extra, d);
    SameSection(lines, lines + extra, d);
  }

  /** Lines appended after the window change neither the anchor nor the window. */
  lemma SectionExtend(lines: seq<string>, extra: seq<string>, d: nat)
    requires FindLine(lines, "Details", 0) == Some(d) && d + 50 <= |lines|
    ensures FindLine(lines + extra, "Details", 0) == Some(d)
    ensures DetailsWindow(lines + extra, d) == DetailsWindow(lines, d)
  {
    FindLineExtend(lines, extra, "Details", 0);
    WindowExtend(lines, extra, d + 1, d + 50);
  }

  lemma SameSection(lines: seq<string>, lines': seq<string>, d: nat)
    requires FindLine(lines, "Details", 0) == Some(d) && FindLine(lines', "Details", 0) == Some(d)
    requires DetailsWindow(lines', d) == DetailsWindow(lines, d)
    ensures DetailsOf(lines') == DetailsOf(lines)
  {
    DetailsAt(lines, d);
    DetailsAt(lines', d);
  }

  lemma DetailsAt(lines: seq<string>, d: nat)
    requires FindLine(lines, "Details", 0) == Some(d)
    ensures DetailsOf(lines) == SectionDict(DetailsWindow(lines, d))
  {
  }

  lemma WindowExtend(lines: seq<string>, extra: seq<string>, lo: nat, hi: nat)
    requires hi <= |lines|
    ensures Window(lines + extra, lo, hi) == Window(lines, lo, hi)
  {
    if lo < hi {
      assert (lines + extra)[lo..hi] == lines[lo..hi];
    }
  }
}
