/**
 * The text fallback of `_extract_foundation` (bigfuture_scraper.py): the
 * sponsoring organisation is looked for among the ten lines before the first
 * line that mentions "About the Scholarship" or "Requirements", first by
 * organisation keywords, then by a "short capitalised name" rule; failing
 * both, among the texts of elements whose class names an organisation.
 */
module Foundation {
  import opened Wrappers
  import opened Text

  const AnchorWords: seq<string> := ["About the Scholarship", "Requirements"]

  const OrgKeywords: seq<string> := [
    "Association", "Foundation", "Fund", "Trust", "Society",
    "Organization", "Council", "Committee", "Institute", "Center"
  ]

  /** The line the search goes back from. */
  predicate AnchorLine(line: string) { AnyIn(AnchorWords, line) }

  /** The `continue` of both loops: empty lines, amounts and date lines. */
  predicate Skipped(line: string) {
    line == [] || StartsWith(line, "$") || Contains(line, "Opens:") || Contains(line, "Closes:")
  }

  /** What the first loop returns, on a stripped line. */
  predicate OrgLine(line: string) {
    !Skipped(line) && AnyIn(OrgKeywords, line)
  }

  /** `re.match(r'^\$|^\d+/\d+', line)`: an amount or the start of a date. */
  predicate DateOrAmount(line: string) {
    StartsWith(line, "$")
    || (0 < DigitRun(line) < |line| && line[DigitRun(line)] == '/' && DigitRun(line[DigitRun(line) + 1..]) > 0)
  }

  /** What the second loop returns, on a stripped line: two to six words, capitalised. */
  predicate NameLine(line: string) {
    !Skipped(line) && |line| <= 60 && 2 <= |Words(line)| <= 6 && IsUpper(line[0]) && !DateOrAmount(line)
  }

  /** What the element fallback returns, on a stripped text. */
  predicate OrgText(text: string) { text != [] && 5 < |text| < 100 }

  predicate OrgCandidate(line: string) { OrgLine(Strip(line)) }

  predicate NameCandidate(line: string) { NameLine(Strip(line)) }

  predicate TextCandidate(text: string) { OrgText(Strip(text)) }

  /** `max(least, a - 10)`. */
  function Back(a: nat, least: nat): nat {
    if a >= least + 10 then a - 10 else least
  }

  /** The two loops over the lines before the anchor; `if about_idx:` skips them for index 0. */
  function FromLines(lines: seq<string>): Option<string> {
    PickBefore(lines, AnchorLine, OrgCandidate, NameCandidate)
  }

  /**
   * The shape of those two loops for any three line tests: the first line
   * passing `first` among the ten before the anchor, else the first passing
   * `second` among the ones after the first line of the page.
   */
  function PickBefore(lines: seq<string>, anchor: string -> bool, first: string -> bool, second: string -> bool): Option<string> {
    match FirstWhere(lines, anchor, 0, |lines|)
    case None => None
    case Some(a) =>
      if a == 0 then None
      else
        match FirstWhere(lines, first, Back(a, 0), a)
        case Some(j) => Some(Strip(lines[j]))
        case None =>
          match FirstWhere(lines, second, Back(a, 1), a)
          case Some(j) => Some(Strip(lines[j]))
          case None => None
  }

  /** The whole fallback once the body is read: the lines first, then the element texts. */
  function FoundationOf(lines: seq<string>, orgTexts: seq<string>): Option<string> {
    match FromLines(lines)
    case Some(x) => Some(x)
    case None =>
      match FirstWhere(orgTexts, TextCandidate, 0, |orgTexts|)
      case Some(j) => Some(Strip(orgTexts[j]))
      case None => None
  }

  /** The text fallback of `_extract_foundation`; a body that could not be read gives `None`. */
  method ExtractFoundation(body: Option<string>, orgTexts: seq<string>) returns (r: Option<string>)
    ensures body.None? ==> r.None?
    ensures body.Some? ==> r == FoundationOf(Split(body.value, "\n"), orgTexts)
  {
    if body.None? {
      return None;
    }
    var lines := Split(body.value, "\n");
    var about := ScanLines(lines, AnchorLine, 0, |lines|);
    if about.Some? && about.value != 0 {
      var a := about.value;
      var k := ScanLines(lines, OrgCandidate, Back(a, 0), a);
      if k.Some? {
        return Some(Strip(lines[k.value]));
      }
      k := ScanLines(lines, NameCandidate, Back(a, 1), a);
      if k.Some? {
        return Some(Strip(lines[k.value]));
      }
    }
    var e := ScanLines(orgTexts, TextCandidate, 0, |orgTexts|);
    if e.Some? {
      return Some(Strip(orgTexts[e.value]));
    }
    return None;
  }

  // ---------------------------------------------------------------------------
  // Properties
  // ---------------------------------------------------------------------------

  /**
   * A name found in the lines is one of the ten lines strictly before a
   * non-zero anchor, stripped, and satisfies one of the two rules.
   */
  lemma NearAnchor(lines: seq<string>, a: nat, x: string)
    requires FirstWhere(lines, AnchorLine, 0, |lines|) == Some(a)
    requires FromLines(lines) == Some(x)
    ensures 0 < a
    ensures exists j :: 0 <= j < a && a <= j + 10 && x == Strip(lines[j])
    ensures OrgLine(x) || NameLine(x)
  {
    var j := PickNear(lines, AnchorLine, OrgCandidate, NameCandidate, a, x);
  }

  lemma PickNear(lines: seq<string>, anchor: string -> bool, first: string -> bool, second: string -> bool, a: nat, x: string)
      returns (j: nat)
    requires FirstWhere(lines, anchor, 0, |lines|) == Some(a)
    requires PickBefore(lines, anchor, first, second) == Some(x)
    ensures 0 < a && 0 <= j < a && a <= j + 10 && x == Strip(lines[j])
    ensures first(lines[j]) || second(lines[j])
  {
    match FirstWhere(lines, first, Back(a, 0), a)
    case Some(k) => j := k;
    case None => j := FirstWhere(lines, second, Back(a, 1), a).value;
  }

  /** An anchor on the first line switches the line search off (`if about_idx:` is false for 0). */
  lemma AnchorOnFirstLine(lines: seq<string>)
    requires lines != [] && AnchorLine(lines[0])
    ensures FromLines(lines).None?
  {
  }

  /**
   * The first line passing the first test among the ten before a non-zero
   * anchor is the result, whatever the second test says about the lines
   * before it: for `FromLines`, the first keyword line beats any name line.
   */
  lemma PickFirst(lines: seq<string>, anchor: string -> bool, first: string -> bool, second: string -> bool, a: nat, j: nat)
    requires FirstWhere(lines, anchor, 0, |lines|) == Some(a) && 0 < a
    requires Back(a, 0) <= j < a && first(lines[j])
    requires forall k :: Back(a, 0) <= k < j ==> !first(lines[k])
    ensures PickBefore(lines, anchor, first, second) == Some(Strip(lines[j]))
  {
    FirstWhereIs(lines, first, Back(a, 0), a, j);
  }

  /** The name rule is used only when no line in the window carries a keyword. */
  lemma NameOnlyWithoutKeyword(lines: seq<string>, a: nat, x: string)
    requires FirstWhere(lines, AnchorLine, 0, |lines|) == Some(a)
    requires FromLines(lines) == Some(x) && !OrgLine(x)
    ensures forall k :: Back(a, 0) <= k < a ==> !OrgCandidate(lines[k])
    ensures NameLine(x)
  {
    NearAnchor(lines, a, x);
    NotAnOrgLine(lines, x);
    PickSecond(lines, AnchorLine, OrgCandidate, NameCandidate, a, x);
  }

  lemma NotAnOrgLine(lines: seq<string>, x: string)
    requires !OrgLine(x)
    ensures forall j :: 0 <= j < |lines| && OrgCandidate(lines[j]) ==> Strip(lines[j]) != x
  {
  }

  lemma PickSecond(lines: seq<string>, anchor: string -> bool, first: string -> bool, second: string -> bool, a: nat, x: string)
    requires FirstWhere(lines, anchor, 0, |lines|) == Some(a)
    requires PickBefore(lines, anchor, first, second) == Some(x)
    requires forall j :: 0 <= j < |lines| && first(lines[j]) ==> Strip(lines[j]) != x
    ensures forall k :: Back(a, 0) <= k < a ==> !first(lines[k])
  {
  }

  /**
   * The page of the unit test for `_extract_foundation`: a title line without
   * a keyword, the sponsor line with one, then the anchor.  The sponsor line
   * is the result.
   */
  lemma SponsorAboveAnchor(lines: seq<string>)
    requires |lines| >= 3 && !AnchorLine(lines[0]) && !AnchorLine(lines[1]) && AnchorLine(lines[2])
    requires !OrgCandidate(lines[0]) && OrgCandidate(lines[1])
    ensures FromLines(lines) == Some(Strip(lines[1]))
  {
    assert FirstWhere(lines, AnchorLine, 0, |lines|) == Some(2);
    PickFirst(lines, AnchorLine, OrgCandidate, NameCandidate, 2, 1);
  }

  /** The `re.match` test is redundant: a line starting with a capital is neither a date nor an amount. */
  lemma CapitalNotDateOrAmount(line: string)
    requires line != [] && IsUpper(line[0])
    ensures !DateOrAmount(line)
  {
  }

  /** Lines decide before the element texts; the element texts decide only when the lines give nothing. */
  lemma LinesBeforeElements(lines: seq<string>, orgTexts: seq<string>)
    ensures FromLines(lines).Some? ==> FoundationOf(lines, orgTexts) == FromLines(lines)
    ensures FromLines(lines).None? && FoundationOf(lines, orgTexts).Some? ==>
      OrgText(FoundationOf(lines, orgTexts).value)
  {
  }
}
