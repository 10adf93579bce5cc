/**
 * The pieces of Python's `str` the scripts rely on: `strip`, `lower`,
 * `replace`, `in`, `startswith`, `endswith`, `split`, `join` and the
 * character classes `\w`, `\s` and `\d` of the `re` module.  Character
 * classes and case mapping are the ASCII subset of Python's Unicode rules.
 */
module Text {
  import opened Wrappers

  /** `str.isspace()` (and regex `\s`) on ASCII characters. */
  predicate IsSpace(c: char) {
    c == ' ' || c == '\t' || c == '\n' || c == '\r' || c == '\U{B}' || c == '\U{C}'
    || ('\U{1C}' <= c <= '\U{1F}')
  }

  predicate IsDigit(c: char) { '0' <= c <= '9' }

  predicate IsUpper(c: char) { 'A' <= c <= 'Z' }

  /** Regex `\w` on ASCII characters. */
  predicate IsWordChar(c: char) { 'a' <= c <= 'z' || IsUpper(c) || IsDigit(c) || c == '_' }

  // ---------------------------------------------------------------------------
  // Prefixes, suffixes and substrings
  // ---------------------------------------------------------------------------

  predicate StartsWith(s: string, p: string) { |p| <= |s| && s[..|p|] == p }

  predicate EndsWith(s: string, p: string) { |p| <= |s| && s[|s| - |p|..] == p }

  /** Python's `w in s` for two strings. */
  predicate Contains(s: string, w: string)
    decreases |s|
  {
    StartsWith(s, w) || (s != [] && Contains(s[1..], w))
  }

  /** `w` occurs in `s` starting at position `i`. */
  predicate MatchAt(s: string, w: string, i: nat) {
    i + |w| <= |s| && s[i..i + |w|] == w
  }

  lemma {:induction false} ContainsAt(s: string, w: string, i: nat)
    requires MatchAt(s, w, i)
    ensures Contains(s, w)
    decreases i
  {
    if i == 0 {
      assert s[..|w|] == w;
    } else {
      assert s[1..][i - 1..i - 1 + |w|] == s[i..i + |w|];
      assert MatchAt(s[1..], w, i - 1);
      ContainsAt(s[1..], w, i - 1);
    }
  }

  /** The position of some occurrence, for a string that contains `w`. */
  lemma {:induction false} ContainsWitness(s: string, w: string) returns (i: nat)
    requires Contains(s, w)
    ensures MatchAt(s, w, i)
    decreases |s|
  {
    if StartsWith(s, w) {
      i := 0;
      assert s[0..0 + |w|] == w;
    } else {
      var j := ContainsWitness(s[1..], w);
      assert s[j + 1..j + 1 + |w|] == s[1..][j..j + |w|];
      i := j + 1;
    }
  }

  /** An occurrence inside a slice is an occurrence in the whole string. */
  lemma ContainsInSlice(s: string, i: nat, j: nat, w: string)
    requires i <= j <= |s| && Contains(s[i..j], w)
    ensures Contains(s, w)
  {
    var k := ContainsWitness(s[i..j], w);
    assert forall t :: 0 <= t < |w| ==> w[t] == s[i..j][k + t] == s[i + k + t];
    assert MatchAt(s, w, i + k);
    ContainsAt(s, w, i + k);
  }

  /** Python's `s.find(w)`, `None` for -1: the leftmost occurrence. */
  function Find(s: string, w: string): (r: Option<nat>)
    ensures r.Some? ==> MatchAt(s, w, r.value)
    ensures r.Some? ==> forall j :: 0 <= j < r.value ==> !MatchAt(s, w, j)
    ensures r.None? <==> !Contains(s, w)
    decreases |s|
  {
    if |s| < |w| then
      assert !Contains(s, w) by { NotContainsShort(s, w); }
      None
    else if s[..|w|] == w then
      assert MatchAt(s, w, 0);
      Some(0)
    else
      match Find(s[1..], w)
      case None => None
      case Some(i) =>
        assert s[i + 1..i + 1 + |w|] == s[1..][i..i + |w|];
        forall j | 0 < j < i + 1
          ensures MatchAt(s, w, j) == MatchAt(s[1..], w, j - 1)
        {
          if j + |w| <= |s| {
            assert s[j..j + |w|] == s[1..][j - 1..j - 1 + |w|];
          }
        }
        Some(i + 1)
  }

  lemma {:induction false} NotContainsShort(s: string, w: string)
    requires |s| < |w|
    ensures !Contains(s, w)
    decreases |s|
  {
    if s != [] { NotContainsShort(s[1..], w); }
  }

  /** With no occurrence starting before `i`, the prefix `s[..i]` has none either. */
  lemma NotContainsBefore(s: string, w: string, i: nat)
    requires w != [] && i <= |s|
    requires forall j :: 0 <= j < i ==> !MatchAt(s, w, j)
    ensures !Contains(s[..i], w)
  {
    if Contains(s[..i], w) {
      var j := ContainsWitness(s[..i], w);
      PrefixMatch(s, w, i, j);
      assert false;
    }
  }

  /** An occurrence in the prefix `s[..i]` is one in `s` that starts before `i`. */
  lemma PrefixMatch(s: string, w: string, i: nat, j: nat)
    requires w != [] && i <= |s| && MatchAt(s[..i], w, j)
    ensures j < i && MatchAt(s, w, j)
  {
    assert s[..i][j..j + |w|] == s[j..j + |w|];
  }

  // ---------------------------------------------------------------------------
  // strip
  // ---------------------------------------------------------------------------

  /** `str.lstrip()`: drops the leading whitespace and nothing else. */
  function LStrip(s: string): (r: string)
    ensures |r| <= |s|
    ensures r == [] || !IsSpace(r[0])
    ensures r != [] ==> r[|r| - 1] == s[|s| - 1]
  {
    if s != [] && IsSpace(s[0]) then LStrip(s[1..]) else s
  }

  /** `lstrip()` drops a run of leading whitespace and keeps the rest. */
  lemma {:induction false} LStripDrops(s: string)
    ensures LStrip(s) == s[|s| - |LStrip(s)|..]
    ensures forall i :: 0 <= i < |s| - |LStrip(s)| ==> IsSpace(s[i])
  {
    if s != [] && IsSpace(s[0]) {
      LStripDrops(s[1..]);
    }
  }

  /** `str.rstrip()`: drops the trailing whitespace and nothing else. */
  function RStrip(s: string): (r: string)
    ensures |r| <= |s|
    ensures r == [] || !IsSpace(r[|r| - 1])
    ensures r != [] ==> r[0] == s[0]
  {
    if s != [] && IsSpace(s[|s| - 1]) then RStrip(s[..|s| - 1]) else s
  }

  /** `rstrip()` drops a run of trailing whitespace and keeps the rest. */
  lemma {:induction false} RStripDrops(s: string)
    ensures RStrip(s) == s[..|RStrip(s)|]
    ensures forall i :: |RStrip(s)| <= i < |s| ==> IsSpace(s[i])
  {
    if s != [] && IsSpace(s[|s| - 1]) {
      RStripDrops(s[..|s| - 1]);
    }
  }

  /** `str.strip()`: neither starts nor ends with whitespace. */
  function Strip(s: string): (r: string)
    ensures r == [] || (!IsSpace(r[0]) && !IsSpace(r[|r| - 1]))
    ensures |r| <= |s|
  {
    RStrip(LStrip(s))
  }

  /** What `strip()` keeps is a piece of the original string. */
  lemma StripIn(s: string)
    ensures Contains(s, Strip(s))
  {
    LStripDrops(s);
    RStripDrops(LStrip(s));
    StripSlice(s, LStrip(s), RStrip(LStrip(s)));
  }

  lemma StripSlice(s: string, l: string, r: string)
    requires |l| <= |s| && l == s[|s| - |l|..]
    requires |r| <= |l| && r == l[..|r|]
    ensures Contains(s, r)
  {
    var a := |s| - |l|;
    assert r == s[a..a + |r|];
    ContainsAt(s, r, a);
  }

  /** A string with no whitespace at either end is its own `strip()`. */
  lemma StripNoop(s: string)
    requires s == [] || (!IsSpace(s[0]) && !IsSpace(s[|s| - 1]))
    ensures Strip(s) == s
  {
  }

  lemma StripIdempotent(s: string)
    ensures Strip(Strip(s)) == Strip(s)
  {
    StripNoop(Strip(s));
  }

  /** A character of the stripped string is a character of the string. */
  lemma CharOfStrip(s: string, c: char)
    requires c in Strip(s)
    ensures c in s
  {
    StripIn(s);
    var i := ContainsWitness(s, Strip(s));
    var k :| 0 <= k < |Strip(s)| && Strip(s)[k] == c;
    assert s[i + k] == s[i..i + |Strip(s)|][k];
  }

  /** A string holding the character `c` contains the one-character string `[c]`. */
  lemma CharContains(s: string, c: char)
    requires c in s
    ensures Contains(s, [c])
  {
    var k :| 0 <= k < |s| && s[k] == c;
    assert s[k..k + 1] == [c];
    ContainsAt(s, [c], k);
  }

  /** A word found in the stripped text is in the original text. */
  lemma ContainsOfStrip(s: string, w: string)
    requires Contains(Strip(s), w)
    ensures Contains(s, w)
  {
    var t := Strip(s);
    StripIn(s);
    var i := ContainsWitness(s, t);
    assert s[i..i + |t|] == t;
    ContainsInSlice(s, i, i + |t|, w);
  }

  // ---------------------------------------------------------------------------
  // Case and character replacement
  // ---------------------------------------------------------------------------

  function LowerChar(c: char): char {
    if IsUpper(c) then (c as int + 32) as char else c
  }

  /** `str.lower()` on ASCII letters. */
  function Lower(s: string): (r: string)
    ensures |r| == |s|
    ensures forall i :: 0 <= i < |s| ==> r[i] == LowerChar(s[i])
    ensures forall i :: 0 <= i < |r| ==> !IsUpper(r[i])
  {
    if s == [] then [] else [LowerChar(s[0])] + Lower(s[1..])
  }

  /** `str.replace(a, b)` for two single characters. */
  function ReplaceChar(s: string, a: char, b: char): (r: string)
    ensures |r| == |s|
    ensures a != b ==> a !in r
    ensures forall i :: 0 <= i < |s| ==> r[i] == (if s[i] == a then b else s[i])
  {
    if s == [] then [] else [if s[0] == a then b else s[0]] + ReplaceChar(s[1..], a, b)
  }

  function KeyChar(c: char): char {
    if c == ' ' then '_' else LowerChar(c)
  }

  /**
   * `.lower().replace(' ', '_')`, the key normalisation the detail scraper
   * applies to every heading and location field.
   */
  function KeyOf(s: string): (r: string)
    ensures |r| == |s|
    ensures ' ' !in r
    ensures forall i :: 0 <= i < |r| ==> !IsUpper(r[i])
  {
    if s == [] then [] else [KeyChar(s[0])] + KeyOf(s[1..])
  }

  /** `KeyOf` is the composition of `lower()` and `replace(' ', '_')`. */
  lemma {:induction false} KeyOfIsLowerReplace(s: string)
    ensures KeyOf(s) == ReplaceChar(Lower(s), ' ', '_')
  {
    if s != [] {
      KeyOfIsLowerReplace(s[1..]);
    }
  }

  /** What `KeyOf` produces: no upper-case letter and no space. */
  predicate IsKey(k: string) {
    k != [] && ' ' !in k && forall i :: 0 <= i < |k| ==> !IsUpper(k[i])
  }

  // ---------------------------------------------------------------------------
  // split and join
  // ---------------------------------------------------------------------------

  /** `s.split(sep)` for a non-empty separator: the pieces between occurrences. */
  function Split(s: string, sep: string): (r: seq<string>)
    requires sep != []
    ensures |r| >= 1
    decreases |s|
  {
    match Find(s, sep)
    case None => [s]
    case Some(i) => [s[..i]] + Split(s[i + |sep|..], sep)
  }

  /** No piece of a split contains the separator. */
  lemma {:induction false} SplitPieces(s: string, sep: string)
    requires sep != []
    ensures forall i :: 0 <= i < |Split(s, sep)| ==> !Contains(Split(s, sep)[i], sep)
    decreases |s|
  {
    var f := Find(s, sep);
    if f.Some? {
      var i := f.value;
      NotContainsBefore(s, sep, i);
      SplitPieces(s[i + |sep|..], sep);
      SplitAt(s, sep, i);
    }
  }

  /** A leading piece that cannot start an occurrence of `sep` is split off first. */
  lemma SplitFirst(a: string, sep: string, rest: string)
    requires sep != [] && sep[0] !in a
    ensures Split(a + sep + rest, sep) == [a] + Split(rest, sep)
  {
    var s := a + sep + rest;
    assert s[|a|..|a| + |sep|] == sep;
    ContainsAt(s, sep, |a|);
    var i := Find(s, sep).value;
    assert s[i] == sep[0];
    assert i == |a|;
    assert s[..|a|] == a && s[|a| + |sep|..] == rest;
  }

  /** A string that cannot start an occurrence of `sep` is a single piece. */
  lemma SplitNone(a: string, sep: string)
    requires sep != [] && sep[0] !in a
    ensures Split(a, sep) == [a]
  {
    NotContainsChar(a, sep, sep[0]);
  }

  /** Splitting a join gives the parts back when no part can start an occurrence of the separator. */
  lemma {:induction false} SplitJoin(sep: string, parts: seq<string>)
    requires sep != [] && |parts| >= 1
    requires forall i :: 0 <= i < |parts| ==> sep[0] !in parts[i]
    ensures Split(Join(sep, parts), sep) == parts
  {
    if |parts| == 1 {
      SplitNone(parts[0], sep);
    } else {
      SplitJoin(sep, parts[1..]);
      SplitFirst(parts[0], sep, Join(sep, parts[1..]));
      assert parts == [parts[0]] + parts[1..];
    }
  }

  /** A string lacking one of the characters of `w` does not contain `w`. */
  lemma NotContainsChar(s: string, w: string, c: char)
    requires c in w && c !in s
    ensures !Contains(s, w)
  {
    if Contains(s, w) {
      var i := ContainsWitness(s, w);
      assert false;
    }
  }

  /** `sep.join(parts)`. */
  function Join(sep: string, parts: seq<string>): string {
    if |parts| == 0 then []
    else if |parts| == 1 then parts[0]
    else parts[0] + sep + Join(sep, parts[1..])
  }

  /** Joining the pieces of a split restores the string. */
  lemma {:induction false} JoinSplit(s: string, sep: string)
    requires sep != []
    ensures Join(sep, Split(s, sep)) == s
    decreases |s|
  {
    var f := Find(s, sep);
    if f.Some? {
      var i := f.value;
      var rest := s[i + |sep|..];
      JoinSplit(rest, sep);
      SplitAt(s, sep, i);
      JoinCons(sep, s[..i], Split(rest, sep));
      Reassemble(s, sep, i);
    }
  }

  lemma {:induction false} SplitAt(s: string, sep: string, i: nat)
    requires sep != [] && Find(s, sep) == Some(i)
    ensures i + |sep| <= |s|
    ensures Split(s, sep) == [s[..i]] + Split(s[i + |sep|..], sep)
  {
    assert MatchAt(s, sep, i);
    SplitUnfold(s, sep, i);
  }

  lemma {:induction false} SplitUnfold(s: string, sep: string, i: nat)
    requires sep != [] && Find(s, sep) == Some(i) && i + |sep| <= |s|
    ensures Split(s, sep) == [s[..i]] + Split(s[i + |sep|..], sep)
  {
  }

  lemma Reassemble(s: string, w: string, i: nat)
    requires MatchAt(s, w, i)
    ensures s == s[..i] + w + s[i + |w|..]
  {
    assert s == s[..i] + s[i..i + |w|] + s[i + |w|..];
  }

  lemma JoinCons(sep: string, a: string, parts: seq<string>)
    requires |parts| >= 1
    ensures Join(sep, [a] + parts) == a + sep + Join(sep, parts)
  {
    assert ([a] + parts)[1..] == parts;
  }

  /** A character absent from the separator and every part is absent from the join. */
  lemma {:induction false} JoinAvoids(sep: string, parts: seq<string>, c: char)
    requires c !in sep
    requires forall i :: 0 <= i < |parts| ==> c !in parts[i]
    ensures c !in Join(sep, parts)
  {
    if |parts| > 1 {
      JoinAvoids(sep, parts[1..], c);
    }
  }

  /** The join starts with the first part and ends with the last. */
  lemma {:induction false} JoinEnds(sep: string, parts: seq<string>)
    requires |parts| > 0
    ensures StartsWith(Join(sep, parts), parts[0])
    ensures EndsWith(Join(sep, parts), parts[|parts| - 1])
  {
    if |parts| > 1 {
      JoinEnds(sep, parts[1..]);
      var j := Join(sep, parts[1..]);
      assert Join(sep, parts) == parts[0] + sep + j;
      assert (parts[0] + sep + j)[..|parts[0]|] == parts[0];
      var last := parts[|parts| - 1];
      assert j[|j| - |last|..] == last;
      assert (parts[0] + sep + j)[|parts[0] + sep + j| - |last|..] == j[|j| - |last|..];
    }
  }

  /**
   * `s.split(c, 1)` as a pair when `c` occurs: the text before and after
   * the first `c`; `None` when `c` does not occur.
   */
  function CharSplit(s: string, c: char): Option<(string, string)>
    decreases |s|
  {
    if s == [] then None
    else if s[0] == c then Some(([], s[1..]))
    else
      match CharSplit(s[1..], c)
      case None => None
      case Some(p) => Some(([s[0]] + p.0, p.1))
  }

  /** `CharSplit` finds the first `c`: the text before it has none, and the pieces rebuild `s`. */
  lemma {:induction false} CharSplitSpec(s: string, c: char)
    ensures CharSplit(s, c).None? <==> c !in s
    ensures CharSplit(s, c).Some? ==> c !in CharSplit(s, c).value.0
    ensures CharSplit(s, c).Some? ==> s == CharSplit(s, c).value.0 + [c] + CharSplit(s, c).value.1
    decreases |s|
  {
    if s != [] && s[0] != c {
      CharSplitSpec(s[1..], c);
      assert s == [s[0]] + s[1..];
    }
  }

  /** The first `c` of `a + [c] + b` is the one after `a` when `a` has none. */
  lemma {:induction false} CharSplitAt(a: string, c: char, b: string)
    requires c !in a
    ensures CharSplit(a + [c] + b, c) == Some((a, b))
    decreases |a|
  {
    if a == [] {
      assert a + [c] + b == [c] + b;
      assert ([c] + b)[1..] == b;
    } else {
      CharSplitAt(a[1..], c, b);
      var s := a + [c] + b;
      assert s[0] == a[0] && s[0] != c;
      assert s[1..] == a[1..] + [c] + b;
      assert a == [a[0]] + a[1..];
    }
  }

  /** `s.replace(w, '')` for a non-empty `w`, which Python defines as `''.join(s.split(w))`. */
  function RemoveAll(s: string, w: string): string
    requires w != []
  {
    Join("", Split(s, w))
  }

  /** `str.split()` with no argument: the maximal whitespace-free runs. */
  function Words(s: string): (r: seq<string>)
    ensures forall i :: 0 <= i < |r| ==> r[i] != []
    decreases |s|
  {
    if s == [] then []
    else if IsSpace(s[0]) then Words(s[1..])
    else
      var k := WordEnd(s);
      [s[..k]] + Words(s[k..])
  }

  function WordEnd(t: string): (k: nat)
    requires t != [] && !IsSpace(t[0])
    ensures 0 < k <= |t|
    ensures k < |t| ==> IsSpace(t[k])
  {
    if |t| == 1 || IsSpace(t[1]) then 1 else 1 + WordEnd(t[1..])
  }

  /** The number of digits `s` starts with. */
  function DigitRun(s: string): (n: nat)
    ensures n <= |s|
    ensures forall i :: 0 <= i < n ==> IsDigit(s[i])
    ensures n < |s| ==> !IsDigit(s[n])
  {
    if s == [] || !IsDigit(s[0]) then 0 else 1 + DigitRun(s[1..])
  }

  lemma DigitRunIs(s: string, n: nat)
    requires n <= |s| && forall i :: 0 <= i < n ==> IsDigit(s[i])
    requires n < |s| ==> !IsDigit(s[n])
    ensures DigitRun(s) == n
  {
  }

  // ---------------------------------------------------------------------------
  // Keyword lists
  // ---------------------------------------------------------------------------

  /** `any(kw in s for kw in kws)`. */
  predicate AnyIn(kws: seq<string>, s: string) {
    exists k :: 0 <= k < |kws| && Contains(s, kws[k])
  }

  /** A word found in a prefix of `s` is found in `s`. */
  lemma ContainsPrefix(s: string, p: string, w: string)
    requires StartsWith(s, p) && Contains(p, w)
    ensures Contains(s, w)
  {
    ContainsInSlice(s, 0, |p|, w);
  }

  /** A keyword found in a prefix of `s` is found in `s`. */
  lemma AnyInPrefix(kws: seq<string>, s: string, p: string)
    requires StartsWith(s, p) && AnyIn(kws, p)
    ensures AnyIn(kws, s)
  {
    var k :| 0 <= k < |kws| && Contains(p, kws[k]);
    ContainsPrefix(s, p, kws[k]);
  }

  /** A word that can sit inside a ", "-joined list only within one of its parts. */
  predicate CommaFree(w: string) {
    w != [] && ',' !in w && w[0] != ' '
  }

  /** An occurrence that overlaps the ',' of `a + ", " + b` puts a ',' in the word. */
  lemma CommaInside(a: string, b: string, w: string, i: nat)
    requires MatchAt(a + ", " + b, w, i) && i <= |a| < i + |w|
    ensures ',' in w
  {
    var s := a + ", " + b;
    assert s[|a|] == ',';
    assert w[|a| - i] == s[i..i + |w|][|a| - i] == s[|a|];
  }

  /** An occurrence starting at the space of `a + ", " + b` starts the word with ' '. */
  lemma SpaceFirst(a: string, b: string, w: string)
    requires w != [] && MatchAt(a + ", " + b, w, |a| + 1)
    ensures w[0] == ' '
  {
    var s := a + ", " + b;
    assert s[|a| + 1] == ' ';
    assert w[0] == s[|a| + 1..|a| + 1 + |w|][0];
  }

  /** A comma-free word found in `a + ", " + b` is found in `a` or in `b`. */
  lemma ContainsAcrossComma(a: string, b: string, w: string)
    requires CommaFree(w) && Contains(a + ", " + b, w)
    ensures Contains(a, w) || Contains(b, w)
  {
    var s := a + ", " + b;
    var i := ContainsWitness(s, w);
    if i + |w| <= |a| {
      assert s[i..i + |w|] == a[i..i + |w|];
      ContainsAt(a, w, i);
    } else if i >= |a| + 2 {
      var j := i - |a| - 2;
      assert s[i..i + |w|] == b[j..j + |w|];
      ContainsAt(b, w, j);
    } else if i <= |a| {
      CommaInside(a, b, w, i);
      assert false;
    } else {
      SpaceFirst(a, b, w);
      assert false;
    }
  }

  /** A comma-free word absent from every part is absent from their ", "-join. */
  lemma {:induction false} JoinNoWord(parts: seq<string>, w: string)
    requires CommaFree(w)
    requires forall i :: 0 <= i < |parts| ==> !Contains(parts[i], w)
    ensures !Contains(Join(", ", parts), w)
  {
    if |parts| == 0 {
      assert Join(", ", parts) == [];
    } else if |parts| > 1 {
      JoinNoWord(parts[1..], w);
      if Contains(Join(", ", parts), w) {
        ContainsAcrossComma(parts[0], Join(", ", parts[1..]), w);
        assert false;
      }
    }
  }

  /** Comma-free keywords absent from every part are absent from their ", "-join. */
  lemma JoinNoKeyword(kws: seq<string>, parts: seq<string>)
    requires forall k :: 0 <= k < |kws| ==> CommaFree(kws[k])
    requires forall i :: 0 <= i < |parts| ==> !AnyIn(kws, parts[i])
    ensures !AnyIn(kws, Join(", ", parts))
  {
    forall k | 0 <= k < |kws| ensures !Contains(Join(", ", parts), kws[k]) {
      JoinNoWord(parts, kws[k]);
    }
  }

  // ---------------------------------------------------------------------------
  // Lines of a page
  // ---------------------------------------------------------------------------

  /** The first line from `i` on that is `w` once stripped (`line.strip() == w`). */
  function FindLine(lines: seq<string>, w: string, i: nat): (r: Option<nat>)
    ensures r.Some? ==> i <= r.value < |lines| && Strip(lines[r.value]) == w
    ensures r.Some? ==> forall j :: i <= j < r.value ==> Strip(lines[j]) != w
    ensures r.None? ==> forall j :: i <= j < |lines| ==> Strip(lines[j]) != w
    decreases |lines| - i
  {
    if i >= |lines| then None
    else if Strip(lines[i]) == w then Some(i)
    else FindLine(lines, w, i + 1)
  }

  /** The loop `for i, line in enumerate(lines): if line.strip() == w: ... break`. */
  method LineIndex(lines: seq<string>, w: string) returns (found: Option<nat>)
    ensures found == FindLine(lines, w, 0)
  {
    var i := 0;
    while i < |lines|
      invariant i <= |lines|
      invariant FindLine(lines, w, i) == FindLine(lines, w, 0)
    {
      if Strip(lines[i]) == w {
        return Some(i);
      }
      i := i + 1;
    }
    return None;
  }

  /** The first index in `lo..hi` whose line satisfies `p`. */
  function FirstWhere(lines: seq<string>, p: string -> bool, lo: nat, hi: nat): (r: Option<nat>)
    requires hi <= |lines|
    ensures r.Some? ==> lo <= r.value < hi && p(lines[r.value])
    ensures r.Some? ==> forall j :: lo <= j < r.value ==> !p(lines[j])
    ensures r.None? ==> forall j :: lo <= j < hi ==> !p(lines[j])
    decreases hi - lo
  {
    if lo >= hi then None
    else if p(lines[lo]) then Some(lo)
    else FirstWhere(lines, p, lo + 1, hi)
  }

  /** A match that no earlier index matches is what `FirstWhere` returns. */
  lemma FirstWhereIs(lines: seq<string>, p: string -> bool, lo: nat, hi: nat, j: nat)
    requires hi <= |lines| && lo <= j < hi && p(lines[j])
    requires forall k :: lo <= k < j ==> !p(lines[k])
    ensures FirstWhere(lines, p, lo, hi) == Some(j)
  {
  }

  /** The loop `for i in range(lo, hi): if p(lines[i]): return i`. */
  method ScanLines(lines: seq<string>, p: string -> bool, lo: nat, hi: nat) returns (found: Option<nat>)
    requires hi <= |lines|
    ensures found == FirstWhere(lines, p, lo, hi)
  {
    var i := lo;
    while i < hi
      invariant lo <= i || hi <= i
      invariant FirstWhere(lines, p, i, hi) == FirstWhere(lines, p, lo, hi)
    {
      if p(lines[i]) {
        return Some(i);
      }
      i := i + 1;
    }
    return None;
  }

  /** The last index below `n` whose element passes `p`: that is, the one a loop that overwrites on every hit keeps. */
  function LastWhere(xs: seq<string>, p: string -> bool, n: nat): (r: Option<nat>)
    requires n <= |xs|
    ensures r.Some? ==> r.value < n && p(xs[r.value])
    ensures r.Some? ==> forall k :: r.value < k < n ==> !p(xs[k])
    ensures r.None? ==> forall k :: 0 <= k < n ==> !p(xs[k])
  {
    if n == 0 then None
    else if p(xs[n - 1]) then Some(n - 1)
    else LastWhere(xs, p, n - 1)
  }

  lemma {:induction false} LastWhereIs(xs: seq<string>, p: string -> bool, n: nat, i: nat)
    requires i < n <= |xs| && p(xs[i])
    requires forall k :: i < k < n ==> !p(xs[k])
    ensures LastWhere(xs, p, n) == Some(i)
    decreases n
  {
    if i < n - 1 {
      LastWhereIs(xs, p, n - 1, i);
    }
  }

  lemma {:induction false} LastWhereNone(xs: seq<string>, p: string -> bool, n: nat)
    requires n <= |xs|
    requires forall k :: 0 <= k < n ==> !p(xs[k])
    ensures LastWhere(xs, p, n).None?
    decreases n
  {
    if n > 0 {
      LastWhereNone(xs, p, n - 1);
    }
  }

  /** Dropping the first element shifts a hit by one; without a later hit, the first element decides. */
  lemma LastWhereTail(xs: seq<string>, p: string -> bool)
    requires xs != []
    ensures LastWhere(xs[1..], p, |xs| - 1).Some? ==>
      LastWhere(xs, p, |xs|) == Some(LastWhere(xs[1..], p, |xs| - 1).value + 1)
    ensures LastWhere(xs[1..], p, |xs| - 1).None? ==>
      LastWhere(xs, p, |xs|) == if p(xs[0]) then Some(0) else None
  {
    var t := xs[1..];
    match LastWhere(t, p, |t|)
    case Some(i) =>
      assert t[i] == xs[i + 1];
      forall k | i + 1 < k < |xs| ensures !p(xs[k]) {
        assert xs[k] == t[k - 1];
      }
      LastWhereIs(xs, p, |xs|, i + 1);
    case None =>
      forall k | 0 < k < |xs| ensures !p(xs[k]) {
        assert xs[k] == t[k - 1];
      }
      if p(xs[0]) {
        LastWhereIs(xs, p, |xs|, 0);
      } else {
        LastWhereNone(xs, p, |xs|);
      }
  }

  /** The lines `lo..hi` of `lines`, with `hi` cut to the end (`range(lo, min(hi, len(lines)))`). */
  function Window(lines: seq<string>, lo: nat, hi: nat): (w: seq<string>)
    ensures |w| == (if hi < |lines| then hi else |lines|) - lo || (|w| == 0 && lo >= (if hi < |lines| then hi else |lines|))
    ensures forall j :: 0 <= j < |w| ==> w[j] == lines[lo + j]
  {
    var top := if hi < |lines| then hi else |lines|;
    if lo < top then lines[lo..top] else []
  }

  /** A window that starts inside the lines begins with the line at `lo`. */
  lemma WindowHead(lines: seq<string>, lo: nat, hi: nat)
    requires lo < hi && lo < |lines|
    ensures Window(lines, lo, hi) != [] && Window(lines, lo, hi)[0] == lines[lo]
  {
  }

  // ---------------------------------------------------------------------------
  // File names
  // ---------------------------------------------------------------------------

  /** The characters the class `[\w\s-]` accepts. */
  predicate FilenameChar(c: char) { IsWordChar(c) || IsSpace(c) || c == '-' }

  /** `re.sub(r'[^\w\s-]', '', s)`: keeps exactly the accepted characters, in order. */
  function KeepFilenameChars(s: string): (r: string)
    ensures |r| <= |s|
    ensures forall i :: 0 <= i < |r| ==> FilenameChar(r[i])
    ensures (forall i :: 0 <= i < |s| ==> FilenameChar(s[i])) ==> r == s
  {
    if s == [] then []
    else if FilenameChar(s[0]) then [s[0]] + KeepFilenameChars(s[1..])
    else KeepFilenameChars(s[1..])
  }

  /** `re.sub(r'[^\w\s-]', '', name).strip().replace(' ', '_')`. */
  function FileStem(name: string): (r: string)
    ensures ' ' !in r
    ensures forall i :: 0 <= i < |r| ==> FilenameChar(r[i])
  {
    var f := ReplaceChar(Strip(KeepFilenameChars(name)), ' ', '_');
    assert forall i :: 0 <= i < |f| ==> FilenameChar(f[i]) by {
      var t := Strip(KeepFilenameChars(name));
      forall i | 0 <= i < |f| ensures FilenameChar(f[i]) {
        assert f[i] == t[i] || f[i] == '_';
        StripKeeps(KeepFilenameChars(name), FilenameChar, i);
      }
    }
    f
  }

  /** Every character of `strip(s)` is a character of `s`, so a property of all of them carries over. */
  lemma StripKeeps(s: string, p: char -> bool, i: nat)
    requires forall j :: 0 <= j < |s| ==> p(s[j])
    requires i < |Strip(s)|
    ensures p(Strip(s)[i])
  {
    var t := Strip(s);
    StripIn(s);
    var k := ContainsWitness(s, t);
    assert t[i] == s[k..k + |t|][i] == s[k + i];
  }

  /** `url.split('/')[-1]`: the text after the last '/'. */
  function Slug(url: string): string {
    var parts := Split(url, "/");
    parts[|parts| - 1]
  }

  /** The url fallback really is the text after the last '/': no '/' in it, and `url` ends with it. */
  lemma SlugIsLastSegment(url: string)
    ensures '/' !in Slug(url)
    ensures EndsWith(url, Slug(url))
    ensures '/' in url ==> url[|url| - |Slug(url)| - 1] == '/'
  {
    var parts := Split(url, "/");
    SplitPieces(url, "/");
    NoSlash(parts[|parts| - 1]);
    JoinSplit(url, "/");
    JoinEnds("/", parts);
    if '/' in url {
      SlugAfterSlash(url, parts);
    }
  }

  /** A string that does not contain "/" has no '/' character. */
  lemma NoSlash(s: string)
    requires !Contains(s, "/")
    ensures '/' !in s
  {
  }

  lemma SlugAfterSlash(url: string, parts: seq<string>)
    requires parts == Split(url, "/") && url == Join("/", parts)
    requires '/' in url
    requires '/' !in parts[|parts| - 1]
    ensures EndsWith(url, "/" + parts[|parts| - 1])
  {
    if |parts| == 1 {
      assert false;
    } else {
      JoinLast("/", parts);
    }
  }

  /** The join of two or more parts ends with the separator and the last part. */
  lemma {:induction false} JoinLast(sep: string, parts: seq<string>)
    requires |parts| >= 2
    ensures EndsWith(Join(sep, parts), sep + parts[|parts| - 1])
  {
    var last := parts[|parts| - 1];
    var j := Join(sep, parts);
    if |parts| == 2 {
      assert Join(sep, parts[1..]) == parts[1];
      assert j == parts[0] + sep + parts[1];
      assert j[|j| - |sep + last|..] == sep + last;
    } else {
      JoinLast(sep, parts[1..]);
      var t := Join(sep, parts[1..]);
      assert j == parts[0] + sep + t;
      assert j[|j| - |sep + last|..] == t[|t| - |sep + last|..];
    }
  }
}
