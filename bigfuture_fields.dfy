/**
 * The remaining text handling of the detail scraper (bigfuture_scraper.py):
 * the essay/need/merit flags of `_extract_flags`, the amount regex of
 * `_extract_amount`, the error-banner test of `_check_page_exists` and the
 * file name chosen by `save_to_json`.  Element texts arrive as strings.
 */
module PageFields {
  import opened Wrappers
  import opened Text
  import opened Dicts
  import opened JsonValues

  // ---------------------------------------------------------------------------
  // _extract_flags
  // ---------------------------------------------------------------------------

  datatype Flag = Essay | Need | Merit

  /** The phrase an element text is searched for. */
  function Phrase(f: Flag): string {
    match f
    case Essay => "Essay Required"
    case Need => "Need-Based"
    case Merit => "Merit-Based"
  }

  /** The key the flag is stored under. */
  function FlagKey(f: Flag): (k: string)
    ensures k in FlagKeys
  {
    match f
    case Essay => "essay_required"
    case Need => "need_based"
    case Merit => "merit_based"
  }

  const FlagKeys: set<string> := {"essay_required", "need_based", "merit_based"}

  lemma FlagKeyInjective(f: Flag, g: Flag)
    ensures FlagKey(f) == FlagKey(g) ==> f == g
  {
    assert "essay_required"[0] == 'e' && "need_based"[0] == 'n' && "merit_based"[0] == 'm';
  }

  /** `'Yes' if 'Yes' in text else 'No'`. */
  function YesNo(text: string): (v: string)
    ensures v == "Yes" || v == "No"
  {
    if Contains(text, "Yes") then "Yes" else "No"
  }

  /** One `if` of the loop body. */
  function MarkFlag(d: Dict<string>, text: string, f: Flag): Dict<string> {
    if Contains(text, Phrase(f)) then Put(d, FlagKey(f), YesNo(text)) else d
  }

  /** The three `if`s of the loop body, on the stripped text. */
  function Mark(d: Dict<string>, text: string): Dict<string> {
    MarkFlag(MarkFlag(MarkFlag(d, text, Essay), text, Need), text, Merit)
  }

  /** The dict after the loop has gone over `texts`, starting from `d`. */
  function FlagsFrom(d: Dict<string>, texts: seq<string>): Dict<string>
    decreases |texts|
  {
    if texts == [] then d else FlagsFrom(Mark(d, Strip(texts[0])), texts[1..])
  }

  function FlagsOf(texts: seq<string>): Option<Dict<string>> {
    var d := FlagsFrom([], texts);
    if d == [] then None else Some(d)
  }

  /** `_extract_flags` over the texts of the matching elements. */
  method ExtractFlags(texts: seq<string>) returns (r: Option<Dict<string>>)
    ensures r == FlagsOf(texts)
  {
    var flags: Dict<string> := [];
    for k := 0 to |texts|
      invariant FlagsFrom(flags, texts[k..]) == FlagsFrom([], texts)
    {
      var text := Strip(texts[k]);
      ghost var before := flags;
      if Contains(text, "Essay Required") {
        flags := Put(flags, "essay_required", YesNo(text));
      }
      if Contains(text, "Need-Based") {
        flags := Put(flags, "need_based", YesNo(text));
      }
      if Contains(text, "Merit-Based") {
        flags := Put(flags, "merit_based", YesNo(text));
      }
      assert flags == Mark(before, text);
      FlagsStep(before, texts, k);
    }
    r := if flags == [] then None else Some(flags);
  }

  lemma FlagsStep(d: Dict<string>, texts: seq<string>, k: nat)
    requires k < |texts|
    ensures FlagsFrom(d, texts[k..]) == FlagsFrom(Mark(d, Strip(texts[k])), texts[k + 1..])
  {
    assert texts[k..][0] == texts[k] && texts[k..][1..] == texts[k + 1..];
  }

  /** The test of the flag's `if`, on the unstripped text. */
  predicate MentionsText(f: Flag, t: string) {
    Contains(Strip(t), Phrase(f))
  }

  /** `MentionsText` as a function value. */
  function Mentions(f: Flag): string -> bool {
    t => MentionsText(f, t)
  }

  /** What a flag is set to by a text that mentions it. */
  function AnswerText(t: string): string {
    YesNo(Strip(t))
  }

  function Answer(): string -> string {
    t => AnswerText(t)
  }

  /** Marking one stripped text changes a flag exactly when the text mentions it. */
  lemma {:induction false} MarkOn(d: Dict<string>, text: string, f: Flag)
    ensures Get(Mark(d, text), FlagKey(f))
      == if Contains(text, Phrase(f)) then Some(YesNo(text)) else Get(d, FlagKey(f))
  {
    FlagKeyInjective(f, Essay);
    FlagKeyInjective(f, Need);
    FlagKeyInjective(f, Merit);
  }

  /** `MarkOn` for the loop's stripped text, in terms of `Mentions` and `Answer`. */
  lemma {:induction false} MarkGet(d: Dict<string>, text: string, f: Flag)
    ensures Get(Mark(d, Strip(text)), FlagKey(f))
      == if Mentions(f)(text) then Some(Answer()(text)) else Get(d, FlagKey(f))
  {
    MarkOn(d, Strip(text), f);
    MentionsAnswer(text, f);
  }

  lemma MentionsAnswer(text: string, f: Flag)
    ensures Mentions(f)(text) == Contains(Strip(text), Phrase(f))
    ensures Answer()(text) == YesNo(Strip(text))
  {
  }

  /** A flag's value after the loop: the last text mentioning it decides, else the start value stays. */
  function FlagAfter(d: Dict<string>, texts: seq<string>, f: Flag): Option<string> {
    LastValue(d, texts, FlagKey(f), Mentions(f), Answer())
  }

  /** The value of `key` after a loop that sets it to `val(x)` for every `x` passing `p`. */
  function LastValue(d: Dict<string>, xs: seq<string>, key: string, p: string -> bool, val: string -> string): Option<string> {
    match LastWhere(xs, p, |xs|)
    case Some(i) => Some(val(xs[i]))
    case None => Get(d, key)
  }

  lemma {:induction false} LastValueStep(d: Dict<string>, e: Dict<string>, xs: seq<string>, key: string, p: string -> bool, val: string -> string)
    requires xs != []
    requires Get(e, key) == if p(xs[0]) then Some(val(xs[0])) else Get(d, key)
    ensures LastValue(e, xs[1..], key, p, val) == LastValue(d, xs, key, p, val)
  {
    var t := xs[1..];
    LastWhereTail(xs, p);
    if LastWhere(t, p, |t|).Some? {
      assert t[LastWhere(t, p, |t|).value] == xs[LastWhere(t, p, |t|).value + 1];
    }
  }

  lemma {:induction false} FlagAfterTail(d: Dict<string>, texts: seq<string>, f: Flag)
    requires texts != []
    ensures FlagAfter(Mark(d, Strip(texts[0])), texts[1..], f) == FlagAfter(d, texts, f)
  {
    MarkGet(d, texts[0], f);
    LastValueStep(d, Mark(d, Strip(texts[0])), texts, FlagKey(f), Mentions(f), Answer());
  }

  /** The loop computes every flag as `FlagAfter` says. */
  lemma {:induction false} FlagValue(d: Dict<string>, texts: seq<string>, f: Flag)
    ensures Get(FlagsFrom(d, texts), FlagKey(f)) == FlagAfter(d, texts, f)
    decreases |texts|
  {
    if texts != [] {
      FlagValue(Mark(d, Strip(texts[0])), texts[1..], f);
      FlagAfterTail(d, texts, f);
    }
  }

  /** The keys are among the three flag keys, each once, and every value is "Yes" or "No". */
  ghost predicate GoodFlags(d: Dict<string>) {
    DistinctKeys(d) && forall i :: 0 <= i < |d| ==> d[i].key in FlagKeys && (d[i].value == "Yes" || d[i].value == "No")
  }

  lemma MarkFlagGood(d: Dict<string>, text: string, f: Flag)
    requires GoodFlags(d)
    ensures GoodFlags(MarkFlag(d, text, f))
  {
  }

  lemma {:induction false} FlagsGood(d: Dict<string>, texts: seq<string>)
    requires GoodFlags(d)
    ensures GoodFlags(FlagsFrom(d, texts))
    decreases |texts|
  {
    if texts != [] {
      var text := Strip(texts[0]);
      MarkFlagGood(d, text, Essay);
      MarkFlagGood(MarkFlag(d, text, Essay), text, Need);
      MarkFlagGood(MarkFlag(MarkFlag(d, text, Essay), text, Need), text, Merit);
      FlagsGood(Mark(d, text), texts[1..]);
    }
  }

  /** The flags dict holds at most the three known keys, each once, each "Yes" or "No". */
  lemma FlagsShape(texts: seq<string>)
    ensures FlagsOf(texts).Some? ==> GoodFlags(FlagsOf(texts).value)
  {
    FlagsGood([], texts);
  }

  /** A flag is present exactly when some text mentions its phrase. */
  lemma {:induction false} FlagPresent(texts: seq<string>, f: Flag)
    ensures FlagsOf(texts).Some? && Get(FlagsOf(texts).value, FlagKey(f)).Some? <==>
      exists i :: 0 <= i < |texts| && MentionsText(f, texts[i])
  {
    FlagValue([], texts, f);
    LastValueFound([], texts, FlagKey(f), Mentions(f), Answer());
  }

  /** The last text that mentions a flag's phrase decides its value. */
  lemma {:induction false} FlagLast(texts: seq<string>, f: Flag, i: nat)
    requires i < |texts| && MentionsText(f, texts[i])
    requires forall k :: i < k < |texts| ==> !MentionsText(f, texts[k])
    ensures FlagsOf(texts).Some? && Get(FlagsOf(texts).value, FlagKey(f)) == Some(YesNo(Strip(texts[i])))
  {
    FlagValue([], texts, f);
    LastWhereIs(texts, Mentions(f), |texts|, i);
    assert Answer()(texts[i]) == YesNo(Strip(texts[i]));
  }

  /** Starting from an empty dict, the key is set exactly when some element passes the test. */
  lemma LastValueFound(d: Dict<string>, xs: seq<string>, key: string, p: string -> bool, val: string -> string)
    requires d == []
    ensures LastValue(d, xs, key, p, val).Some? <==> exists i :: 0 <= i < |xs| && p(xs[i])
  {
  }

  // ---------------------------------------------------------------------------
  // The amount: re.search(r'\$[\d,]+', text)
  // ---------------------------------------------------------------------------

  predicate AmountChar(c: char) { IsDigit(c) || c == ',' }

  /** The number of digits and commas `s` starts with. */
  function AmountRun(s: string): (n: nat)
    ensures n <= |s|
    ensures forall i :: 0 <= i < n ==> AmountChar(s[i])
    ensures n < |s| ==> !AmountChar(s[n])
  {
    if s == [] || !AmountChar(s[0]) then 0 else 1 + AmountRun(s[1..])
  }

  /** The pattern can start at `i`: a '$' followed by a digit or comma. */
  predicate DollarAt(s: string, i: nat) {
    i + 1 < |s| && s[i] == '$' && AmountChar(s[i + 1])
  }

  /** The leftmost position from `i` on where the pattern matches. */
  function DollarFrom(s: string, i: nat): (r: Option<nat>)
    ensures r.Some? ==> i <= r.value && DollarAt(s, r.value)
    ensures r.Some? ==> forall j :: i <= j < r.value ==> !DollarAt(s, j)
    ensures r.None? ==> forall j :: i <= j ==> !DollarAt(s, j)
    decreases |s| - i
  {
    if i + 1 >= |s| then None
    else if DollarAt(s, i) then Some(i)
    else DollarFrom(s, i + 1)
  }

  /** `amount_match.group()`: the leftmost '$' with the longest run of digits and commas after it. */
  function AmountMatch(s: string): (r: Option<string>)
    ensures r.Some? ==> |r.value| >= 2 && r.value[0] == '$'
    ensures r.Some? ==> forall k :: 1 <= k < |r.value| ==> AmountChar(r.value[k])
    ensures r.None? <==> forall j :: 0 <= j < |s| ==> !DollarAt(s, j)
  {
    match DollarFrom(s, 0)
    case None => None
    case Some(i) =>
      var m := s[i..i + 1 + AmountRun(s[i + 1..])];
      assert forall k :: 1 <= k < |m| ==> m[k] == s[i + 1..][k - 1];
      Some(m)
  }

  /** The match sits at the leftmost possible place and cannot be extended. */
  lemma AmountMatchAt(s: string)
    requires AmountMatch(s).Some?
    ensures exists i: nat ::
      && MatchAt(s, AmountMatch(s).value, i)
      && (forall j: nat :: j < i ==> !DollarAt(s, j))
      && (i + |AmountMatch(s).value| == |s| || !AmountChar(s[i + |AmountMatch(s).value|]))
  {
    var i := DollarFrom(s, 0).value;
    var n := AmountRun(s[i + 1..]);
    assert MatchAt(s, AmountMatch(s).value, i);
    assert i + 1 + n < |s| ==> s[i + 1 + n] == s[i + 1..][n];
  }

  /** A match found again in itself is itself, so taking the amount twice changes nothing. */
  lemma AmountMatchIdempotent(s: string)
    requires AmountMatch(s).Some?
    ensures AmountMatch(AmountMatch(s).value) == AmountMatch(s)
  {
    var m := AmountMatch(s).value;
    assert DollarAt(m, 0);
    assert DollarFrom(m, 0) == Some(0);
    AmountRunAll(m[1..]);
    assert m[0..1 + |m[1..]|] == m;
  }

  lemma AmountRunAll(s: string)
    requires forall k :: 0 <= k < |s| ==> AmountChar(s[k])
    ensures AmountRun(s) == |s|
  {
  }

  /** What one element text yields: `None` when it is blank (the cascade moves on), else the match or the text. */
  function AmountText(text: string): (r: Option<string>)
    ensures r.None? <==> Strip(text) == []
  {
    var t := Strip(text);
    if t == [] then None
    else
      match AmountMatch(t)
      case Some(m) => Some(m)
      case None => Some(t)
  }

  predicate NonBlank(text: string) { Strip(text) != [] }

  /** The selector cascade, given the texts of the elements it reaches in order: the first non-blank one decides. */
  function AmountOf(texts: seq<string>): Option<string> {
    match FirstWhere(texts, NonBlank, 0, |texts|)
    case None => None
    case Some(j) => AmountText(texts[j])
  }

  /** An amount is a '$' amount from the first non-blank text, or that whole text when it has none. */
  lemma AmountShape(texts: seq<string>, j: nat)
    requires j < |texts| && NonBlank(texts[j]) && forall k :: 0 <= k < j ==> !NonBlank(texts[k])
    ensures AmountOf(texts).Some?
    ensures AmountMatch(Strip(texts[j])).Some? ==> AmountOf(texts) == AmountMatch(Strip(texts[j]))
    ensures AmountMatch(Strip(texts[j])).None? ==> AmountOf(texts) == Some(Strip(texts[j]))
  {
    FirstWhereIs(texts, NonBlank, 0, |texts|, j);
  }

  // ---------------------------------------------------------------------------
  // _check_page_exists
  // ---------------------------------------------------------------------------

  const NotFound: string := "Sorry, the page doesn't exist"

  /** `False` only when the first error banner's stripped text carries the not-found message. */
  predicate PageExists(banners: seq<string>) {
    !(banners != [] && Contains(Strip(banners[0]), NotFound))
  }

  /** A missing page is one whose first banner mentions the message; later banners never matter. */
  lemma PageMissing(banners: seq<string>)
    ensures !PageExists(banners) ==> banners != [] && Contains(banners[0], NotFound)
    ensures banners != [] ==> PageExists(banners) == PageExists(banners[..1])
    ensures PageExists([])
  {
    if !PageExists(banners) {
      ContainsOfStrip(banners[0], NotFound);
    }
  }

  // ---------------------------------------------------------------------------
  // save_to_json: the file name
  // ---------------------------------------------------------------------------

  /**
   * The name used when none is given: the sanitised `name` if it is truthy,
   * else the last '/' segment of `url` (`''` when absent).  A truthy name or a
   * url that is not a string raises in the source.
   */
  function DefaultName(data: Dict<Json>): Result<string> {
    var name := Get(data, "name");
    if name.Some? && Truthy(name.value) then
      if name.value.Str? then Ok(FileStem(name.value.s) + ".json") else Err("name is not a string")
    else
      var url := Get(data, "url");
      if url.None? then Ok(Slug("") + ".json")
      else if url.value.Str? then Ok(Slug(url.value.s) + ".json")
      else Err("url is not a string")
  }

  /** The file name `save_to_json` writes to, or the error it raises. */
  function SaveName(data: Dict<Json>, filename: Option<string>): (r: Result<string>)
    ensures data == [] ==> r == Err("No data to save.")
    ensures r.Ok? ==> EndsWith(r.value, ".json")
  {
    if data == [] then Err("No data to save.")
    else
      var chosen := if filename.Some? then Ok(filename.value) else DefaultName(data);
      match chosen
      case Err(e) => Err(e)
      case Ok(f) =>
        if EndsWith(f, ".json") then Ok(f)
        else
          assert (f + ".json")[|f|..] == ".json";
          Ok(f + ".json")
  }

  /** An explicit name is kept when it ends in ".json" and gets the suffix otherwise. */
  lemma ExplicitName(data: Dict<Json>, f: string)
    requires data != []
    ensures EndsWith(f, ".json") ==> SaveName(data, Some(f)) == Ok(f)
    ensures !EndsWith(f, ".json") ==> SaveName(data, Some(f)) == Ok(f + ".json")
  {
  }

  /**
   * Without an explicit name: a truthy string name gives its sanitised stem,
   * not cut to 100 characters; otherwise the stem is the last '/' segment of
   * the url, which holds no '/', and is empty when there is no url.  A truthy
   * name or a url that is not a string is an error.
   */
  lemma DefaultNameFrom(data: Dict<Json>)
    requires data != []
    ensures var name := Get(data, "name");
      name.Some? && Truthy(name.value) ==>
        SaveName(data, None) == if name.value.Str? then Ok(FileStem(name.value.s) + ".json")
                                else Err("name is not a string")
    ensures var name := Get(data, "name");
      !(name.Some? && Truthy(name.value)) && Get(data, "url").None? ==>
        SaveName(data, None) == Ok(Slug("") + ".json")
    ensures var name, url := Get(data, "name"), Get(data, "url");
      !(name.Some? && Truthy(name.value)) && url.Some? ==>
        SaveName(data, None) == if url.value.Str? then Ok(Slug(url.value.s) + ".json")
                                else Err("url is not a string")
    ensures var name, url := Get(data, "name"), Get(data, "url");
      !(name.Some? && Truthy(name.value)) && url.Some? && url.value.Str? ==> '/' !in Slug(url.value.s)
  {
    var name := Get(data, "name");
    var url := Get(data, "url");
    if name.Some? && Truthy(name.value) && name.value.Str? {
      var f := FileStem(name.value.s);
      assert (f + ".json")[|f|..] == ".json";
    }
    if !(name.Some? && Truthy(name.value)) {
      var u := if url.Some? && url.value.Str? then url.value.s else "";
      SlugIsLastSegment(u);
      assert (Slug(u) + ".json")[|Slug(u)|..] == ".json";
    }
  }
}
