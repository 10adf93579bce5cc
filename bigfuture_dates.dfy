/**
 * The text side of `_extract_dates` (bigfuture_scraper.py): the searches
 * `re.search(r'Opens:\s*(\d{1,2}/\d{1,2}/\d{4})', page_text)` and the same for
 * "Closes:", the fallback on the first element whose text mentions the tag,
 * and the `{opens, closes}` dict.  The page body and the element texts are
 * inputs; `None` for the body stands for the lookup that raised.
 */
module Dates {
  import opened Wrappers
  import opened Text
  import opened Dicts

  // ---------------------------------------------------------------------------
  // The date pattern
  // ---------------------------------------------------------------------------

  /** `d` is `\d{a}/\d{b}/\d{4}`. */
  predicate DateForm(d: string, a: nat, b: nat) {
    |d| == a + b + 6 && d[a] == '/' && d[a + b + 1] == '/'
    && (forall i :: 0 <= i < a ==> IsDigit(d[i]))
    && (forall i :: a < i < a + b + 1 ==> IsDigit(d[i]))
    && (forall i :: a + b + 1 < i < |d| ==> IsDigit(d[i]))
  }

  /** `d` matches `\d{1,2}/\d{1,2}/\d{4}` in full. */
  predicate IsDate(d: string) {
    DateForm(d, 1, 1) || DateForm(d, 1, 2) || DateForm(d, 2, 1) || DateForm(d, 2, 2)
  }

  /**
   * The group `(\d{1,2}/\d{1,2}/\d{4})` matched at the start of `u`.  Each
   * `\d{1,2}` must be followed by '/', so backtracking never helps: a field is
   * exactly the run of digits before the next '/', and it must be one or two
   * digits long.  The year is the next four digits, whatever follows them.
   */
  function DateAt(u: string): (r: Option<string>)
    ensures r.Some? ==> 8 <= |r.value| <= 10
  {
    var a := DigitRun(u);
    if !(1 <= a <= 2 && a < |u| && u[a] == '/') then None
    else
      var v := u[a + 1..];
      var b := DigitRun(v);
      if !(1 <= b <= 2 && b < |v| && v[b] == '/') then None
      else if DigitRun(v[b + 1..]) < 4 then None
      else Some(u[..a + b + 6])
  }

  /** `\s*` then the group: whitespace is never a digit, so `\s*` takes all of it. */
  function DateAfter(t: string): Option<string> {
    DateAt(LStrip(t))
  }

  /** What `DateAt` finds is a date that `u` starts with. */
  lemma DateAtSound(u: string)
    requires DateAt(u).Some?
    ensures IsDate(DateAt(u).value) && StartsWith(u, DateAt(u).value)
  {
    var a := DigitRun(u);
    var v := u[a + 1..];
    var b := DigitRun(v);
    var d := u[..a + b + 6];
    assert forall i :: a < i < a + b + 1 ==> d[i] == v[i - a - 1];
    assert forall i :: a + b + 1 < i < |d| ==> d[i] == v[b + 1..][i - a - b - 2];
    assert DateForm(d, a, b);
  }

  /** Any date that `u` starts with is the one `DateAt` finds. */
  lemma DateAtComplete(u: string, d: string, a: nat, b: nat)
    requires DateForm(d, a, b) && 1 <= a <= 2 && 1 <= b <= 2 && StartsWith(u, d)
    ensures DateAt(u) == Some(d)
  {
    assert forall i :: 0 <= i < |d| ==> u[i] == d[i];
    DigitRunIs(u, a);
    var v := u[a + 1..];
    assert forall i :: 0 <= i < b ==> v[i] == d[a + 1 + i];
    DigitRunIs(v, b);
    var x := v[b + 1..];
    assert forall i :: 0 <= i < 4 ==> x[i] == d[a + b + 2 + i];
    assert DigitRun(x) >= 4;
    assert u[..a + b + 6] == d;
  }

  /** The date matcher agrees with the pattern exactly. */
  lemma DateAtIff(u: string, d: string)
    ensures DateAt(u) == Some(d) <==> IsDate(d) && StartsWith(u, d)
  {
    if DateAt(u) == Some(d) {
      DateAtSound(u);
    }
    if IsDate(d) && StartsWith(u, d) {
      if DateForm(d, 1, 1) { DateAtComplete(u, d, 1, 1); }
      else if DateForm(d, 1, 2) { DateAtComplete(u, d, 1, 2); }
      else if DateForm(d, 2, 1) { DateAtComplete(u, d, 2, 1); }
      else { DateAtComplete(u, d, 2, 2); }
    }
  }

  // ---------------------------------------------------------------------------
  // re.search
  // ---------------------------------------------------------------------------

  /** The whole pattern `tag\s*(date)` matches at position `p` of `s`, capturing `d`. */
  predicate RegexMatch(s: string, tag: string, p: nat, d: string) {
    MatchAt(s, tag, p) && IsDate(d) && StartsWith(LStrip(s[p + |tag|..]), d)
  }

  predicate MatchesAt(s: string, tag: string, p: nat) {
    MatchAt(s, tag, p) && DateAfter(s[p + |tag|..]).Some?
  }

  /** The leftmost position from `i` on where the pattern matches. */
  function SearchFrom(s: string, tag: string, i: nat): (r: Option<nat>)
    ensures r.Some? ==> i <= r.value && MatchesAt(s, tag, r.value)
    ensures r.Some? ==> forall j :: i <= j < r.value ==> !MatchesAt(s, tag, j)
    ensures r.None? ==> forall j :: i <= j ==> !MatchesAt(s, tag, j)
    decreases |s| - i
  {
    if i + |tag| > |s| then None
    else if MatchesAt(s, tag, i) then Some(i)
    else SearchFrom(s, tag, i + 1)
  }

  /** `re.search(tag + r'\s*(\d{1,2}/\d{1,2}/\d{4})', s).group(1)`, or `None` without a match. */
  function Search(s: string, tag: string): (r: Option<string>)
    ensures r.Some? ==> |r.value| >= 8
  {
    match SearchFrom(s, tag, 0)
    case None => None
    case Some(p) => DateAfter(s[p + |tag|..])
  }

  /** A found date is the capture of a match, and no match starts further left. */
  lemma SearchFound(s: string, tag: string, d: string)
    requires Search(s, tag) == Some(d)
    ensures exists p: nat :: RegexMatch(s, tag, p, d) && NoMatchBefore(s, tag, p)
  {
    var p := SearchFrom(s, tag, 0).value;
    DateAtIff(LStrip(s[p + |tag|..]), d);
    assert RegexMatch(s, tag, p, d);
    NoneBefore(s, tag, p);
  }

  /** The pattern captures nothing at any position before `p`. */
  ghost predicate NoMatchBefore(s: string, tag: string, p: nat) {
    forall q: nat, e :: q < p ==> !RegexMatch(s, tag, q, e)
  }

  lemma NoneBefore(s: string, tag: string, p: nat)
    requires forall j :: 0 <= j < p ==> !MatchesAt(s, tag, j)
    ensures NoMatchBefore(s, tag, p)
  {
    forall q: nat, e | q < p && MatchAt(s, tag, q) ensures !RegexMatch(s, tag, q, e) {
      assert !MatchesAt(s, tag, q);
      DateAtIff(LStrip(s[q + |tag|..]), e);
    }
  }

  /** Without a found date the pattern matches nowhere. */
  lemma SearchMissing(s: string, tag: string)
    requires Search(s, tag).None?
    ensures forall p: nat, e :: !RegexMatch(s, tag, p, e)
  {
    forall p: nat, e ensures !RegexMatch(s, tag, p, e) {
      if RegexMatch(s, tag, p, e) {
        DateAtIff(LStrip(s[p + |tag|..]), e);
        assert MatchesAt(s, tag, p);
        assert false;
      }
    }
  }

  // ---------------------------------------------------------------------------
  // The two fields and the dict
  // ---------------------------------------------------------------------------

  /** The element fallback: `texts[0].strip().replace(tag, '').strip()` when non-empty. */
  function ElementDate(texts: seq<string>, tag: string): (r: Option<string>)
    requires tag != []
    ensures r.Some? ==> r.value != [] && Strip(r.value) == r.value
  {
    if texts == [] then None
    else
      var part := Strip(RemoveAll(Strip(texts[0]), tag));
      StripIdempotent(RemoveAll(Strip(texts[0]), tag));
      if part == [] then None else Some(part)
  }

  /** One field: the page search first, then the element fallback. */
  function FieldDate(page: string, texts: seq<string>, tag: string): (r: Option<string>)
    requires tag != []
    ensures r.Some? ==> r.value != []
  {
    match Search(page, tag)
    case Some(d) => Some(d)
    case None => ElementDate(texts, tag)
  }

  /** The dict `_extract_dates` builds from the two fields, "opens" first. */
  function DatesDict(o: Option<string>, c: Option<string>): Dict<string> {
    (if o.Some? then [Item("opens", o.value)] else [])
      + (if c.Some? then [Item("closes", c.value)] else [])
  }

  /** `_extract_dates` once the body is read: the dict, `None` when it is empty. */
  function DatesOf(page: string, opensTexts: seq<string>, closesTexts: seq<string>): Option<Dict<string>> {
    var d := DatesDict(FieldDate(page, opensTexts, "Opens:"), FieldDate(page, closesTexts, "Closes:"));
    if d == [] then None else Some(d)
  }

  /** `_extract_dates`: a body that could not be read gives `None`. */
  function ExtractDates(body: Option<string>, opensTexts: seq<string>, closesTexts: seq<string>): (r: Option<Dict<string>>)
    ensures body.None? ==> r.None?
  {
    if body.None? then None else DatesOf(body.value, opensTexts, closesTexts)
  }

  // ---------------------------------------------------------------------------
  // Properties
  // ---------------------------------------------------------------------------

  /**
   * The dict holds "opens" then "closes", each exactly when its field was
   * found, with the field's value; every value is non-empty.
   */
  lemma DatesShape(page: string, opensTexts: seq<string>, closesTexts: seq<string>, d: Dict<string>)
    requires DatesOf(page, opensTexts, closesTexts) == Some(d)
    ensures DistinctKeys(d) && Keys(d) <= {"opens", "closes"} && 1 <= |d| <= 2
    ensures Get(d, "opens") == FieldDate(page, opensTexts, "Opens:")
    ensures Get(d, "closes") == FieldDate(page, closesTexts, "Closes:")
    ensures d[0].key == "opens" <==> FieldDate(page, opensTexts, "Opens:").Some?
    ensures forall i :: 0 <= i < |d| ==> d[i].value != []
  {
    DictShape(FieldDate(page, opensTexts, "Opens:"), FieldDate(page, closesTexts, "Closes:"));
  }

  lemma DictShape(o: Option<string>, c: Option<string>)
    requires o.Some? ==> o.value != []
    requires c.Some? ==> c.value != []
    ensures var d := DatesDict(o, c);
      DistinctKeys(d) && Keys(d) <= {"opens", "closes"} && |d| <= 2
      && Get(d, "opens") == o && Get(d, "closes") == c
      && (d != [] ==> (d[0].key == "opens" <==> o.Some?))
      && (forall i :: 0 <= i < |d| ==> d[i].value != [])
  {
    var d := DatesDict(o, c);
    if o.Some? && c.Some? {
      assert d == [Item("opens", o.value), Item("closes", c.value)];
      GetAt(d, 0);
      GetAt(d, 1);
      assert Keys(d) == {"opens", "closes"};
    } else if o.Some? {
      assert d == [Item("opens", o.value)];
      GetAt(d, 0);
      assert Keys(d) == {"opens"};
    } else if c.Some? {
      assert d == [Item("closes", c.value)];
      GetAt(d, 0);
      assert Keys(d) == {"closes"};
    } else {
      assert Keys(d) == {};
    }
  }

  /** `None` exactly when neither field was found. */
  lemma DatesNone(page: string, opensTexts: seq<string>, closesTexts: seq<string>)
    ensures DatesOf(page, opensTexts, closesTexts).None?
      <==> FieldDate(page, opensTexts, "Opens:").None? && FieldDate(page, closesTexts, "Closes:").None?
  {
  }

  /** A page date found by the search always has the date shape, whatever the elements say. */
  lemma PageDateIsDate(page: string, texts: seq<string>, tag: string)
    requires tag != [] && Search(page, tag).Some?
    ensures FieldDate(page, texts, tag) == Search(page, tag)
    ensures IsDate(FieldDate(page, texts, tag).value)
  {
    SearchFound(page, tag, Search(page, tag).value);
  }

  // ---------------------------------------------------------------------------
  // The unit-test page
  // ---------------------------------------------------------------------------

  /** Positions whose character cannot start `tag` are passed over. */
  lemma SearchSkip(s: string, tag: string, i: nat, p: nat)
    requires tag != [] && i <= p && MatchesAt(s, tag, p)
    requires forall j :: i <= j < p ==> s[j] != tag[0]
    ensures SearchFrom(s, tag, i) == Some(p)
    decreases p - i
  {
    if i < p {
      assert i + |tag| <= |s| ==> s[i..i + |tag|][0] == s[i];
      SearchSkip(s, tag, i + 1, p);
    }
  }

  lemma DateFirst(t: string, d: string, rest: string)
    requires IsDate(d) && t == " " + d + rest
    ensures DateAfter(t) == Some(d)
  {
    assert t[0] == ' ' && t[1..] == d + rest;
    assert LStrip(t) == LStrip(t[1..]);
    assert LStrip(d + rest) == d + rest;
    DateAtIff(d + rest, d);
  }

  lemma DateChars(d: string)
    requires IsDate(d)
    ensures forall i :: 0 <= i < |d| ==> IsDigit(d[i]) || d[i] == '/'
  {
  }

  /** A date right after `tag` and a space, with no earlier character that could start `tag`, is what the search returns. */
  lemma TagFound(page: string, pre: string, tag: string, d: string, rest: string)
    requires tag != [] && IsDate(d) && page == pre + tag + " " + d + rest
    requires forall j :: 0 <= j < |pre| ==> pre[j] != tag[0]
    ensures Search(page, tag) == Some(d)
  {
    var p := |pre|;
    assert page[p..p + |tag|] == tag;
    var t := page[p + |tag|..];
    assert t == " " + d + rest;
    DateFirst(t, d, rest);
    assert MatchesAt(page, tag, p);
    SearchSkip(page, tag, 0, p);
    SearchIs(page, tag, p, d);
  }

  lemma SearchIs(s: string, tag: string, p: nat, d: string)
    requires SearchFrom(s, tag, 0) == Some(p) && DateAfter(s[p + |tag|..]) == Some(d)
    ensures Search(s, tag) == Some(d)
  {
  }

  lemma Avoids(a: string, b: string, c: char)
    requires forall j :: 0 <= j < |a| ==> a[j] != c
    requires forall j :: 0 <= j < |b| ==> b[j] != c
    ensures forall j :: 0 <= j < |a + b| ==> (a + b)[j] != c
  {
  }

  /** The page of the unit test for `_extract_dates`, with its two dates as parameters. */
  function OpensClosesPage(d1: string, d2: string): string {
    "Opens: " + d1 + "\n" + "Closes: " + d2
  }

  lemma PageSplit(d1: string, d2: string)
    ensures OpensClosesPage(d1, d2) == [] + "Opens:" + " " + d1 + ("\n" + "Closes: " + d2)
    ensures OpensClosesPage(d1, d2) == ("Opens: " + d1 + "\n") + "Closes:" + " " + d2 + ""
  {
    assert "Opens: " == "Opens:" + " ";
    assert "Closes: " == "Closes:" + " ";
  }

  lemma OpensPart(d1: string, d2: string)
    requires IsDate(d1)
    ensures Search(OpensClosesPage(d1, d2), "Opens:") == Some(d1)
  {
    PageSplit(d1, d2);
    TagFound(OpensClosesPage(d1, d2), [], "Opens:", d1, "\n" + "Closes: " + d2);
  }

  lemma ClosesPart(d1: string, d2: string)
    requires IsDate(d1) && IsDate(d2)
    ensures Search(OpensClosesPage(d1, d2), "Closes:") == Some(d2)
  {
    PageSplit(d1, d2);
    DateChars(d1);
    Avoids("Opens: ", d1, 'C');
    Avoids("Opens: " + d1, "\n", 'C');
    TagFound(OpensClosesPage(d1, d2), "Opens: " + d1 + "\n", "Closes:", d2, "");
  }

  /**
   * "Opens: d1\nCloses: d2" yields `{opens: d1, closes: d2}` for any two dates,
   * whatever the element texts; "2/1/2025" and "3/1/2025" are dates
   * (`DateForm(_, 1, 1)`).
   */
  lemma OpensCloses(d1: string, d2: string, o: seq<string>, c: seq<string>)
    requires IsDate(d1) && IsDate(d2)
    ensures DatesOf(OpensClosesPage(d1, d2), o, c) == Some([Item("opens", d1), Item("closes", d2)])
  {
    OpensPart(d1, d2);
    ClosesPart(d1, d2);
    BothFound(OpensClosesPage(d1, d2), o, c, d1, d2);
  }

  lemma BothFound(page: string, o: seq<string>, c: seq<string>, d1: string, d2: string)
    requires Search(page, "Opens:") == Some(d1) && Search(page, "Closes:") == Some(d2)
    ensures DatesOf(page, o, c) == Some([Item("opens", d1), Item("closes", d2)])
  {
    assert FieldDate(page, o, "Opens:") == Some(d1);
    assert FieldDate(page, c, "Closes:") == Some(d2);
    var d := DatesDict(Some(d1), Some(d2));
    assert d == [Item("opens", d1)] + [Item("closes", d2)];
    assert d == [Item("opens", d1), Item("closes", d2)];
  }
}
