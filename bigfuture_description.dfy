/**
 * The text side of `_extract_description` (bigfuture_scraper.py): the first
 * long sentence among the nine lines after the first line that mentions
 * "About the Scholarship", else the page's `og:description` meta content.
 */
module Description {
  import opened Wrappers
  import opened Text

  /** `'About the Scholarship' in line`. */
  predicate AboutLine(line: string) { Contains(line, "About the Scholarship") }

  /** The test on a stripped line: not a date or amount line, longer than 50 characters, with a '.'. */
  predicate Sentence(line: string) {
    line != []
    && !StartsWith(line, "Opens:") && !StartsWith(line, "Closes:")
    && !StartsWith(line, "Win up to") && !StartsWith(line, "$")
    && |line| > 50 && Contains(line, ".")
  }

  predicate SentenceCandidate(line: string) { Sentence(Strip(line)) }

  /** `min(a + 10, len(lines))`. */
  function WindowEnd(a: nat, n: nat): nat {
    if a + 10 < n then a + 10 else n
  }

  /**
   * The description once the body is read; `meta` is the meta tag's content,
   * `None` when the tag or its attribute is missing.  An anchor on the first
   * line is honoured here (`is not None`).
   */
  function DescriptionOf(lines: seq<string>, meta: Option<string>): Option<string> {
    match FirstWhere(lines, AboutLine, 0, |lines|)
    case None => meta
    case Some(a) =>
      match FirstWhere(lines, SentenceCandidate, a + 1, WindowEnd(a, |lines|))
      case Some(j) => Some(Strip(lines[j]))
      case None => meta
  }

  /** `_extract_description`; a body that could not be read gives `None`, meta included. */
  method ExtractDescription(body: Option<string>, meta: Option<string>) returns (r: Option<string>)
    ensures body.None? ==> r.None?
    ensures body.Some? ==> r == DescriptionOf(Split(body.value, "\n"), meta)
  {
    if body.None? {
      return None;
    }
    var lines := Split(body.value, "\n");
    var about := ScanLines(lines, AboutLine, 0, |lines|);
    if about.Some? {
      var a := about.value;
      var k := ScanLines(lines, SentenceCandidate, a + 1, WindowEnd(a, |lines|));
      if k.Some? {
        return Some(Strip(lines[k.value]));
      }
    }
    return meta;
  }

  // ---------------------------------------------------------------------------
  // Properties
  // ---------------------------------------------------------------------------

  /**
   * A description that is not the meta content is a stripped sentence from
   * one of the nine lines after the anchor.
   */
  lemma AfterAnchor(lines: seq<string>, meta: Option<string>, a: nat, x: string)
    requires FirstWhere(lines, AboutLine, 0, |lines|) == Some(a)
    requires DescriptionOf(lines, meta) == Some(x) && meta != Some(x)
    ensures exists j :: a < j < a + 10 && j < |lines| && x == Strip(lines[j])
    ensures Sentence(x) && Strip(x) == x
  {
    var j := FirstWhere(lines, SentenceCandidate, a + 1, WindowEnd(a, |lines|)).value;
    assert x == Strip(lines[j]);
    StripIdempotent(lines[j]);
  }

  /** Without an anchor line the meta content is the answer. */
  lemma NoAnchor(lines: seq<string>, meta: Option<string>)
    requires forall j :: 0 <= j < |lines| ==> !AboutLine(lines[j])
    ensures DescriptionOf(lines, meta) == meta
  {
    assert FirstWhere(lines, AboutLine, 0, |lines|).None?;
  }

  /**
   * The first sentence after the anchor wins; the anchor may be the very
   * first line, which the foundation search would refuse.
   */
  lemma FirstSentence(lines: seq<string>, meta: Option<string>, a: nat, j: nat)
    requires FirstWhere(lines, AboutLine, 0, |lines|) == Some(a)
    requires a < j < a + 10 && j < |lines| && SentenceCandidate(lines[j])
    requires forall k :: a < k < j ==> !SentenceCandidate(lines[k])
    ensures DescriptionOf(lines, meta) == Some(Strip(lines[j]))
  {
    SentenceFirst(lines, a, j);
    SentenceAt(lines, meta, a, j);
  }

  lemma SentenceFirst(lines: seq<string>, a: nat, j: nat)
    requires a < j < a + 10 && j < |lines| && SentenceCandidate(lines[j])
    requires forall k :: a < k < j ==> !SentenceCandidate(lines[k])
    ensures FirstWhere(lines, SentenceCandidate, a + 1, WindowEnd(a, |lines|)) == Some(j)
  {
    FirstWhereIs(lines, SentenceCandidate, a + 1, WindowEnd(a, |lines|), j);
  }

  lemma SentenceAt(lines: seq<string>, meta: Option<string>, a: nat, j: nat)
    requires FirstWhere(lines, AboutLine, 0, |lines|) == Some(a)
    requires WindowEnd(a, |lines|) <= |lines|
    requires FirstWhere(lines, SentenceCandidate, a + 1, WindowEnd(a, |lines|)) == Some(j)
    ensures DescriptionOf(lines, meta) == Some(Strip(lines[j]))
  {
  }
}
