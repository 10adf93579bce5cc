/**
 * The scrape queue of master_scraper.py: a list of (name, url, is_scraped)
 * rows, a directory of saved records, and the loop that takes the first
 * pending row, calls the detail scraper up to `max_retries` times, saves the
 * record and marks the row done.
 *
 * The queue CSV is the field `queue`, the output directory is the set `store`
 * of file names present in it, and the detail scraper is a function
 * `extract(k, url)` giving the outcome of the k-th call.
 */
module Orchestrator {
  import opened Wrappers
  import opened Text

  /** A row of scholarships.csv; a missing column reads as "". */
  datatype SourceRow = SourceRow(name: string, url: string)

  /** A row of the queue CSV, with `is_scraped` as a boolean. */
  datatype Entry = Entry(name: string, url: string, scraped: bool)

  /**
   * What one call of the detail scraper gives: a record whose `name` field may
   * be missing (`None`) or any string, an empty result, or an exception with
   * its message.
   */
  datatype Outcome = Data(name: Option<string>) | NoData | Failure(message: string)

  /** An entry of the `skipped` list. */
  datatype Skip = Skip(name: string, url: string, reason: string)

  // ---------------------------------------------------------------------------
  // generate_filename
  // ---------------------------------------------------------------------------

  /** The name cleaned for use as a file name, cut to 100 characters. */
  function CleanName(name: string): (r: string)
    ensures |r| <= 100 && ' ' !in r
    ensures forall i :: 0 <= i < |r| ==> FilenameChar(r[i])
    ensures |FileStem(name)| <= 100 ==> r == FileStem(name)
  {
    var f := FileStem(name);
    if |f| <= 100 then f else f[..100]
  }

  /** `generate_filename(name, url)`. */
  function GenerateFilename(name: string, url: string): (r: string)
    ensures EndsWith(r, ".json")
    ensures name != [] && CleanName(name) != [] ==> r == CleanName(name) + ".json"
    ensures name == [] || CleanName(name) == [] ==> r == Slug(url) + ".json"
  {
    if name != [] && CleanName(name) != [] then CleanName(name) + ".json" else Slug(url) + ".json"
  }

  /** A url ending in '/' gives the file name ".json". */
  lemma SlashUrlFilename(name: string, url: string)
    requires name == [] || CleanName(name) == []
    requires url != [] && url[|url| - 1] == '/'
    ensures GenerateFilename(name, url) == ".json"
  {
    SlugIsLastSegment(url);
  }

  // ---------------------------------------------------------------------------
  // Queue contents
  // ---------------------------------------------------------------------------

  /** How a row's file is named; the class uses `GenerateFilename`. */
  type Namer = (string, string) -> string

  /** The file of an entry is present in the output directory. */
  predicate HasFile(e: Entry, store: set<string>, file: Namer) {
    file(e.name, e.url) in store
  }

  /** The queue `initialize_queue` writes for `source` against the files in `store`. */
  function BuildQueue(source: seq<SourceRow>, store: set<string>, file: Namer): (q: seq<Entry>)
    ensures |q| == |source|
    ensures forall i :: 0 <= i < |q| ==>
      q[i] == Entry(source[i].name, source[i].url, file(source[i].name, source[i].url) in store)
  {
    if source == [] then []
    else
      var r := source[|source| - 1];
      BuildQueue(source[..|source| - 1], store, file) + [Entry(r.name, r.url, file(r.name, r.url) in store)]
  }

  /** The number of rows marked 'False'. */
  function CountUnscraped(q: seq<Entry>): nat {
    if q == [] then 0 else CountUnscraped(q[..|q| - 1]) + (if q[|q| - 1].scraped then 0 else 1)
  }

  /** The number of rows marked 'True'. */
  function ScrapedCount(q: seq<Entry>): nat {
    if q == [] then 0 else ScrapedCount(q[..|q| - 1]) + (if q[|q| - 1].scraped then 1 else 0)
  }

  lemma BuildQueueNext(source: seq<SourceRow>, i: nat, store: set<string>, file: Namer)
    requires i < |source|
    ensures BuildQueue(source[..i + 1], store, file)
         == BuildQueue(source[..i], store, file) + [Entry(source[i].name, source[i].url, file(source[i].name, source[i].url) in store)]
  {
    assert source[..i + 1][..i] == source[..i];
  }

  lemma ScrapedSnoc(q: seq<Entry>, e: Entry)
    ensures ScrapedCount(q + [e]) == ScrapedCount(q) + (if e.scraped then 1 else 0)
  {
    assert (q + [e])[..|q|] == q;
  }

  /** Already scraped plus remaining is the total. */
  lemma {:induction false} CountsAddUp(q: seq<Entry>)
    ensures ScrapedCount(q) + CountUnscraped(q) == |q|
  {
    if q != [] { CountsAddUp(q[..|q| - 1]); }
  }

  /** No row is left unscraped exactly when the count is zero. */
  lemma {:induction false} CountZero(q: seq<Entry>)
    ensures CountUnscraped(q) == 0 <==> forall i :: 0 <= i < |q| ==> q[i].scraped
  {
    if q != [] {
      var p := q[..|q| - 1];
      CountZero(p);
      assert forall i :: 0 <= i < |p| ==> p[i] == q[i];
    }
  }

  /** `q'` is `q` with the same rows in the same order, some flags raised from 'False' to 'True'. */
  predicate Raises(q: seq<Entry>, q': seq<Entry>) {
    |q'| == |q| &&
    forall i :: 0 <= i < |q| ==>
      q'[i].name == q[i].name && q'[i].url == q[i].url && (q[i].scraped ==> q'[i].scraped)
  }

  lemma RaisesTrans(q1: seq<Entry>, q2: seq<Entry>, q3: seq<Entry>)
    requires Raises(q1, q2) && Raises(q2, q3)
    ensures Raises(q1, q3)
  {
  }

  /** Raising flags never increases the number of unscraped rows. */
  lemma {:induction false} CountMono(q: seq<Entry>, q': seq<Entry>)
    requires Raises(q, q')
    ensures CountUnscraped(q') <= CountUnscraped(q)
  {
    if q != [] {
      CountMono(q[..|q| - 1], q'[..|q| - 1]);
    }
  }

  /** Raising the flag of a row that was 'False' lowers the count. */
  lemma {:induction false} CountStrict(q: seq<Entry>, q': seq<Entry>, k: nat)
    requires Raises(q, q') && k < |q| && !q[k].scraped && q'[k].scraped
    ensures CountUnscraped(q') < CountUnscraped(q)
  {
    var n := |q| - 1;
    if k == n {
      CountMono(q[..n], q'[..n]);
    } else {
      CountStrict(q[..n], q'[..n], k);
    }
  }

  // ---------------------------------------------------------------------------
  // update_queue
  // ---------------------------------------------------------------------------

  /** Every row whose URL equals `url` gets the flag `flag`; nothing else changes. */
  function MarkUrl(q: seq<Entry>, url: string, flag: bool): (r: seq<Entry>)
    ensures |r| == |q|
  {
    seq(|q|, i requires 0 <= i < |q| => if q[i].url == url then q[i].(scraped := flag) else q[i])
  }

  /** Some row with this URL has a different flag: `updated` in `update_queue`. */
  predicate Changes(q: seq<Entry>, url: string, flag: bool) {
    exists i :: 0 <= i < |q| && q[i].url == url && q[i].scraped != flag
  }

  /** Marking twice is marking once. */
  lemma MarkUrlIdempotent(q: seq<Entry>, url: string, flag: bool)
    ensures MarkUrl(MarkUrl(q, url, flag), url, flag) == MarkUrl(q, url, flag)
  {
  }

  /** When no flag differs the queue is already what marking would give, so not rewriting it loses nothing. */
  lemma MarkUrlUnchanged(q: seq<Entry>, url: string, flag: bool)
    ensures !Changes(q, url, flag) <==> MarkUrl(q, url, flag) == q
  {
    if MarkUrl(q, url, flag) == q {
      forall i | 0 <= i < |q| && q[i].url == url ensures q[i].scraped == flag {
        assert MarkUrl(q, url, flag)[i] == q[i];
      }
    }
  }

  /** Marking as scraped only raises flags; it lowers the count when some matching row was 'False'. */
  lemma MarkUrlCount(q: seq<Entry>, url: string)
    ensures Raises(q, MarkUrl(q, url, true))
    ensures CountUnscraped(MarkUrl(q, url, true)) <= CountUnscraped(q)
    ensures Changes(q, url, true) ==> CountUnscraped(MarkUrl(q, url, true)) < CountUnscraped(q)
  {
    CountMono(q, MarkUrl(q, url, true));
    if Changes(q, url, true) {
      var k :| 0 <= k < |q| && q[k].url == url && q[k].scraped != true;
      CountStrict(q, MarkUrl(q, url, true), k);
    }
  }

  // ---------------------------------------------------------------------------
  // get_next_unscraped
  // ---------------------------------------------------------------------------

  /** A row to scrape: marked 'False' and without a file. */
  predicate Pending(e: Entry, store: set<string>, file: Namer) {
    !e.scraped && !HasFile(e, store, file)
  }

  /** A row marked 'False' whose file exists after all. */
  predicate Stale(e: Entry, store: set<string>, file: Namer) {
    !e.scraped && HasFile(e, store, file)
  }

  /** The first pending row, if any. */
  function FirstPending(q: seq<Entry>, store: set<string>, file: Namer): (r: Option<nat>)
    ensures r.Some? ==> r.value < |q| && Pending(q[r.value], store, file)
    ensures r.Some? ==> forall j :: 0 <= j < r.value ==> !Pending(q[j], store, file)
    ensures r.None? <==> forall j :: 0 <= j < |q| ==> !Pending(q[j], store, file)
  {
    FirstPendingFrom(q, store, file, 0)
  }

  function FirstPendingFrom(q: seq<Entry>, store: set<string>, file: Namer, i: nat): (r: Option<nat>)
    requires i <= |q|
    ensures r.Some? ==> i <= r.value < |q| && Pending(q[r.value], store, file)
    ensures r.Some? ==> forall j :: i <= j < r.value ==> !Pending(q[j], store, file)
    ensures r.None? <==> forall j :: i <= j < |q| ==> !Pending(q[j], store, file)
    decreases |q| - i
  {
    if i == |q| then None
    else if Pending(q[i], store, file) then Some(i)
    else FirstPendingFrom(q, store, file, i + 1)
  }

  lemma FirstPendingIs(q: seq<Entry>, store: set<string>, file: Namer, k: nat)
    requires k < |q| && Pending(q[k], store, file)
    requires forall j :: 0 <= j < k ==> !Pending(q[j], store, file)
    ensures FirstPending(q, store, file) == Some(k)
  {
  }

  /** The queue after `get_next_unscraped` has marked the stale rows among `rows`, one `update_queue` each. */
  function FixStale(q: seq<Entry>, rows: seq<Entry>, store: set<string>, file: Namer): (r: seq<Entry>)
    ensures |r| == |q|
  {
    if rows == [] then q
    else
      var p := FixStale(q, rows[..|rows| - 1], store, file);
      var e := rows[|rows| - 1];
      if Stale(e, store, file) then MarkUrl(p, e.url, true) else p
  }

  /** Fixing stale rows only raises flags. */
  lemma {:induction false} FixStaleRaises(q: seq<Entry>, rows: seq<Entry>, store: set<string>, file: Namer)
    ensures Raises(q, FixStale(q, rows, store, file))
  {
    if rows != [] {
      var p := FixStale(q, rows[..|rows| - 1], store, file);
      FixStaleRaises(q, rows[..|rows| - 1], store, file);
      MarkUrlCount(p, rows[|rows| - 1].url);
    }
  }

  /** A row sharing its URL with a stale row that was scanned ends up marked. */
  lemma {:induction false} FixStaleMarks(q: seq<Entry>, rows: seq<Entry>, store: set<string>, file: Namer, j: nat, t: nat)
    requires j < |rows| && t < |q| && Stale(rows[j], store, file) && q[t].url == rows[j].url
    ensures FixStale(q, rows, store, file)[t].scraped
  {
    var n := |rows| - 1;
    var p := FixStale(q, rows[..n], store, file);
    FixStaleRaises(q, rows[..n], store, file);
    if j < n {
      FixStaleMarks(q, rows[..n], store, file, j, t);
      MarkUrlCount(p, rows[n].url);
    }
  }

  /** After `get_next_unscraped` returned row `k`, every earlier 'False' row whose file exists is marked. */
  lemma GetNextFixesEarlier(q: seq<Entry>, store: set<string>, file: Namer, k: nat)
    requires FirstPending(q, store, file) == Some(k)
    ensures forall j :: 0 <= j < k && !q[j].scraped ==> FixStale(q, q[..k], store, file)[j].scraped
  {
    forall j | 0 <= j < k && !q[j].scraped ensures FixStale(q, q[..k], store, file)[j].scraped {
      assert q[..k][j] == q[j];
      FixStaleMarks(q, q[..k], store, file, j, j);
    }
  }

  /** When nothing is pending, the scan marks every row scraped. */
  lemma NoPendingAllScraped(q: seq<Entry>, store: set<string>, file: Namer)
    requires FirstPending(q, store, file) == None
    ensures forall i :: 0 <= i < |q| ==> FixStale(q, q, store, file)[i].scraped
  {
    FixStaleRaises(q, q, store, file);
    forall i | 0 <= i < |q| ensures FixStale(q, q, store, file)[i].scraped {
      if !q[i].scraped {
        FixStaleMarks(q, q, store, file, i, i);
      }
    }
  }

  // ---------------------------------------------------------------------------
  // The retry loop of run
  // ---------------------------------------------------------------------------

  /** `scholarship_data and scholarship_data.get('name')`. */
  predicate Succeeds(o: Outcome) {
    o.Data? && o.name.Some? && o.name.value != []
  }

  /** The `last_error` a failed attempt leaves. */
  function ErrorOf(o: Outcome): string {
    if o.Failure? then o.message else "No data returned from scraper"
  }

  /** What the attempts from call number `c` on, with `left` attempts to go, come to. */
  datatype Attempts = Attempts(success: bool, used: nat, lastError: Option<string>)

  function Retry(extract: (nat, string) -> Outcome, url: string, c: nat, left: int, lastError: Option<string>): (a: Attempts)
    decreases left
  {
    if left <= 0 then Attempts(false, 0, lastError)
    else if Succeeds(extract(c, url)) then Attempts(true, 1, lastError)
    else
      var a := Retry(extract, url, c + 1, left - 1, Some(ErrorOf(extract(c, url))));
      a.(used := a.used + 1)
  }

  /** At most `left` calls; a success is the last call; no attempt at all when `left <= 0`. */
  lemma {:induction false} RetryBounds(extract: (nat, string) -> Outcome, url: string, c: nat, left: int, e: Option<string>)
    ensures Retry(extract, url, c, left, e).used <= if left <= 0 then 0 else left
    ensures Retry(extract, url, c, left, e).success ==>
      1 <= Retry(extract, url, c, left, e).used && Succeeds(extract(c + Retry(extract, url, c, left, e).used - 1, url))
    ensures !Retry(extract, url, c, left, e).success ==> Retry(extract, url, c, left, e).used == if left <= 0 then 0 else left
    ensures left <= 0 ==> Retry(extract, url, c, left, e) == Attempts(false, 0, e)
    decreases left
  {
    if left > 0 && !Succeeds(extract(c, url)) {
      RetryBounds(extract, url, c + 1, left - 1, Some(ErrorOf(extract(c, url))));
    }
  }

  /** When every attempt fails, the reason recorded is that of the last call. */
  lemma {:induction false} RetryLastError(extract: (nat, string) -> Outcome, url: string, c: nat, left: int, e: Option<string>)
    requires left > 0 && !Retry(extract, url, c, left, e).success
    ensures Retry(extract, url, c, left, e).lastError == Some(ErrorOf(extract(c + left - 1, url)))
    decreases left
  {
    if left > 1 {
      RetryLastError(extract, url, c + 1, left - 1, Some(ErrorOf(extract(c, url))));
    }
  }

  /** `last_error or 'Unknown error'`. */
  function Reason(lastError: Option<string>): (r: string)
    ensures r != []
    ensures lastError.Some? && lastError.value != [] ==> r == lastError.value
  {
    if lastError.Some? && lastError.value != [] then lastError.value else "Unknown error"
  }

  /** `a * m`, as repeated addition so that the loop bound below stays linear. */
  function Times(a: nat, m: nat): nat {
    if a == 0 then 0 else Times(a - 1, m) + m
  }

  lemma {:induction false} TimesIsProduct(a: nat, m: nat)
    ensures Times(a, m) == a * m
  {
    if a > 0 { TimesIsProduct(a - 1, m); }
  }

  /** Dropping at least one row from the count frees at least `m` calls. */
  lemma {:induction false} TimesStep(c': nat, c: nat, m: nat)
    requires c' < c
    ensures Times(c', m) + m <= Times(c, m)
    decreases c
  {
    if c' < c - 1 { TimesStep(c', c - 1, m); }
  }

  class MasterScraper {
    /** The queue CSV. */
    var queue: seq<Entry>
    /** The names of the files in the output directory. */
    var store: set<string>
    const maxRetries: int
    /** `generate_filename`, fixed by the constructor. */
    const fileName: Namer
    /** How many times the detail scraper has been called. */
    var calls: nat
    /** How many times the queue CSV has been written. */
    var queueWrites: nat

    constructor (files: set<string>, maxRetries: int)
      ensures queue == [] && store == files && this.maxRetries == maxRetries
      ensures fileName == GenerateFilename
      ensures calls == 0 && queueWrites == 0
    {
      fileName := GenerateFilename;
      queue := [];
      store := files;
      this.maxRetries := maxRetries;
      calls := 0;
      queueWrites := 0;
    }

    /** `is_scraped(name, url)`. */
    predicate IsScraped(name: string, url: string)
      reads this
    {
      fileName(name, url) in store
    }

    /** `initialize_queue`: one row per source row, flagged by whether its file exists; the file is written once. */
    method InitializeQueue(source: seq<SourceRow>) returns (scrapedCount: nat, remaining: nat)
      modifies this`queue, this`queueWrites
      ensures queue == BuildQueue(source, store, fileName)
      ensures scrapedCount == ScrapedCount(queue)
      ensures remaining == CountUnscraped(queue) && scrapedCount + remaining == |source|
      ensures queueWrites == old(queueWrites) + 1
    {
      var rows;
      rows, scrapedCount := ScanSource(source);
      queue := rows;
      queueWrites := queueWrites + 1;
      CountsAddUp(rows);
      remaining := |rows| - scrapedCount;
    }

    /** The loop of `initialize_queue`: a row per source row, flagged by the `is_scraped` test, and the count of flagged rows. */
    method ScanSource(source: seq<SourceRow>) returns (rows: seq<Entry>, scrapedCount: nat)
      ensures rows == BuildQueue(source, store, fileName)
      ensures scrapedCount == ScrapedCount(rows)
    {
      rows := [];
      scrapedCount := 0;
      var i := 0;
      while i < |source|
        invariant 0 <= i <= |source|
        invariant rows == BuildQueue(source[..i], store, fileName)
        invariant scrapedCount == ScrapedCount(rows)
      {
        var row := source[i];
        var isScraped := fileName(row.name, row.url) in store;
        if isScraped {
          scrapedCount := scrapedCount + 1;
        }
        BuildQueueNext(source, i, store, fileName);
        ScrapedSnoc(rows, Entry(row.name, row.url, isScraped));
        rows := rows + [Entry(row.name, row.url, isScraped)];
        i := i + 1;
      }
      assert source[..i] == source;
    }

    /**
     * `update_queue(url, flag)`: every row with this URL gets the flag; the file
     * is rewritten exactly when some flag changed.
     */
    method UpdateQueue(url: string, flag: bool) returns (updated: bool)
      modifies this`queue, this`queueWrites
      ensures queue == MarkUrl(old(queue), url, flag)
      ensures updated == Changes(old(queue), url, flag)
      ensures queueWrites == old(queueWrites) + (if updated then 1 else 0)
    {
      var rows: seq<Entry> := [];
      updated := false;
      var i := 0;
      while i < |queue|
        invariant 0 <= i <= |queue|
        invariant queue == old(queue) && queueWrites == old(queueWrites)
        invariant rows == MarkUrl(queue[..i], url, flag)
        invariant updated == Changes(queue[..i], url, flag)
      {
        var row := queue[i];
        if row.url == url {
          var oldStatus := row.scraped;
          row := row.(scraped := flag);
          if oldStatus != row.scraped {
            updated := true;
          }
        }
        assert queue[..i + 1][..i] == queue[..i];
        assert queue[..i + 1][i] == queue[i];
        ChangesSnoc(queue[..i], queue[i], url, flag);
        assert queue[..i] + [queue[i]] == queue[..i + 1];
        rows := rows + [row];
        i := i + 1;
      }
      assert queue[..i] == queue;
      if updated {
        queue := rows;
        queueWrites := queueWrites + 1;
      } else {
        MarkUrlUnchanged(queue, url, flag);
      }
    }

    /**
     * `get_next_unscraped`: the first 'False' row whose file is absent; on the
     * way every 'False' row whose file exists is marked by `update_queue`.
     * The rows are read from the queue as it was when the call began.
     */
    method GetNextUnscraped() returns (next: Option<Entry>)
      modifies this`queue, this`queueWrites
      ensures FirstPending(old(queue), store, fileName).None? ==>
        next == None && queue == FixStale(old(queue), old(queue), store, fileName)
      ensures FirstPending(old(queue), store, fileName).Some? ==>
        var k := FirstPending(old(queue), store, fileName).value;
        next == Some(old(queue)[k]) && queue == FixStale(old(queue), old(queue)[..k], store, fileName)
      ensures queueWrites >= old(queueWrites)
    {
      var snapshot := queue;
      var i := 0;
      while i < |snapshot|
        invariant 0 <= i <= |snapshot|
        invariant queue == FixStale(snapshot, snapshot[..i], store, fileName)
        invariant forall j :: 0 <= j < i ==> !Pending(snapshot[j], store, fileName)
        invariant queueWrites >= old(queueWrites)
      {
        var row := snapshot[i];
        assert snapshot[..i + 1][..i] == snapshot[..i];
        if !row.scraped {
          if fileName(row.name, row.url) in store {
            var _ := UpdateQueue(row.url, true);
          } else {
            FirstPendingIs(snapshot, store, fileName, i);
            return Some(row);
          }
        }
        i := i + 1;
      }
      assert snapshot[..i] == snapshot;
      return None;
    }

    /** `count_remaining`: the number of rows marked 'False'. */
    method CountRemaining() returns (count: nat)
      ensures count == CountUnscraped(queue)
      ensures count <= |queue|
    {
      count := 0;
      var i := 0;
      while i < |queue|
        invariant 0 <= i <= |queue|
        invariant count == CountUnscraped(queue[..i])
      {
        assert queue[..i + 1][..i] == queue[..i];
        if !queue[i].scraped {
          count := count + 1;
        }
        i := i + 1;
      }
      assert queue[..i] == queue;
      CountsAddUp(queue);
    }

    /** `save_scholarship_json`: the record's file now exists, under the queue's own name and url. */
    method SaveScholarshipJson(name: string, url: string) returns (filename: string)
      modifies this`store
      ensures filename == fileName(name, url)
      ensures store == old(store) + {filename}
      ensures IsScraped(name, url)
    {
      filename := fileName(name, url);
      store := store + {filename};
    }

    /**
     * The `for attempt in range(1, max_retries + 1)` loop of `run` for one row:
     * on the first call whose record has a name, the record is saved and the
     * row's URL marked; otherwise nothing but `calls` changes.
     */
    method ScrapeEntry(name: string, url: string, extract: (nat, string) -> Outcome)
      returns (success: bool, lastError: Option<string>)
      modifies this`calls, this`store, this`queue, this`queueWrites
      ensures var a := Retry(extract, url, old(calls), maxRetries, None);
        success == a.success && lastError == a.lastError && calls == old(calls) + a.used
      ensures success ==> store == old(store) + {fileName(name, url)}
      ensures success ==> queue == MarkUrl(old(queue), url, true)
      ensures !success ==> store == old(store) && queue == old(queue)
    {
      success := false;
      lastError := None;
      var attempt := 1;
      while attempt <= maxRetries && !success
        invariant 1 <= attempt && (maxRetries >= 1 ==> attempt <= maxRetries + 1)
        invariant calls == old(calls) + (attempt - 1) || success
        invariant !success ==>
          var a := Retry(extract, url, calls, maxRetries - attempt + 1, lastError);
          Retry(extract, url, old(calls), maxRetries, None) == a.(used := a.used + (attempt - 1))
        invariant !success ==> store == old(store) && queue == old(queue)
        invariant success ==> var a := Retry(extract, url, old(calls), maxRetries, None);
          a.success && lastError == a.lastError && calls == old(calls) + a.used
        invariant success ==> store == old(store) + {fileName(name, url)}
        invariant success ==> queue == MarkUrl(old(queue), url, true)
        decreases maxRetries - attempt + 1, if success then 0 else 1
      {
        var outcome := extract(calls, url);
        calls := calls + 1;
        if Succeeds(outcome) {
          var _ := SaveScholarshipJson(name, url);
          var _ := UpdateQueue(url, true);
          success := true;
        } else {
          lastError := Some(ErrorOf(outcome));
          attempt := attempt + 1;
        }
      }
      if !success {
        assert Retry(extract, url, calls, maxRetries - attempt + 1, lastError).used == 0;
      }
    }

    /**
     * One round of the `while True` loop of `run`: take the next pending row; if
     * there is one, scrape it with retries, and when every attempt failed mark
     * its URL anyway.  A round that finds a row lowers the number of 'False'
     * rows and calls the detail scraper at most `max_retries` times.
     */
    method Round(extract: (nat, string) -> Outcome)
      returns (next: Option<Entry>, success: bool, lastError: Option<string>, ghost row: nat)
      modifies this`queue, this`queueWrites, this`calls, this`store
      ensures Raises(old(queue), queue) && old(store) <= store && calls >= old(calls)
      ensures next.None? ==> calls == old(calls) && store == old(store)
      ensures next.None? ==> forall i :: 0 <= i < |queue| ==> queue[i].scraped
      ensures next.Some? ==> CountUnscraped(queue) < CountUnscraped(old(queue))
      ensures next.Some? ==> row < |old(queue)| && old(queue)[row] == next.value
      ensures next.Some? ==> calls - old(calls) <= if maxRetries <= 0 then 0 else maxRetries
      ensures success ==> next.Some? && store == old(store) + {fileName(next.value.name, next.value.url)}
      ensures !success ==> store == old(store)
      ensures maxRetries <= 0 ==> calls == old(calls) && !success && lastError == None
      ensures next.None? ==> !success && lastError == None
      ensures next.None? ==> queue == FixStale(old(queue), old(queue), old(store), fileName)
      ensures next.Some? ==>
        queue == MarkUrl(FixStale(old(queue), old(queue)[..row], old(store), fileName), next.value.url, true)
      ensures next.Some? ==> var a := Retry(extract, next.value.url, old(calls), maxRetries, None);
        success == a.success && lastError == a.lastError && calls == old(calls) + a.used
    {
      ghost var snapshot := queue;
      ghost var callsBefore := calls;
      next := GetNextUnscraped();
      success, lastError, row := false, None, 0;
      if next.None? {
        NoPendingAllScraped(snapshot, store, fileName);
        FixStaleRaises(snapshot, snapshot, store, fileName);
        return;
      }
      ghost var k := FirstPending(snapshot, store, fileName).value;
      row := k;
      FixStaleRaises(snapshot, snapshot[..k], store, fileName);
      ghost var fixed := queue;
      var name, url := next.value.name, next.value.url;
      success, lastError := ScrapeEntry(name, url, extract);
      RetryBounds(extract, url, callsBefore, maxRetries, None);
      if !success {
        var _ := UpdateQueue(url, true);
      }
      MarkUrlCount(fixed, url);
      RaisesTrans(snapshot, fixed, queue);
      CountStrict(snapshot, queue, k);
    }

    /**
     * `run`: initialise the queue, then take pending rows until none is left.
     * Each round marks its row scraped, so the number of 'False' rows falls and
     * the loop ends with every row marked; the detail scraper is called at most
     * `max_retries` times per row that was pending at the start.
     */
    method Run(source: seq<SourceRow>, extract: (nat, string) -> Outcome)
      returns (processed: nat, failed: nat, skipped: seq<Skip>, ghost offsets: seq<nat>)
      modifies this
      ensures |queue| == |source|
      ensures forall i :: 0 <= i < |queue| ==>
        queue[i].scraped && queue[i].name == source[i].name && queue[i].url == source[i].url
      ensures old(store) <= store
      ensures calls - old(calls) <= CountUnscraped(BuildQueue(source, old(store), fileName)) * (if maxRetries <= 0 then 0 else maxRetries)
      ensures |skipped| == failed
      ensures forall t :: 0 <= t < |skipped| ==> Listed(source, skipped[t].name, skipped[t].url)
      ensures maxRetries <= 0 ==> calls == old(calls) && store == old(store) && processed == 0
      ensures maxRetries <= 0 ==> forall s :: s in skipped ==> s.reason == "Unknown error"
      ensures processed + failed <= CountUnscraped(BuildQueue(source, old(store), fileName))
      ensures SkipsFrom(extract, skipped, offsets, maxRetries)
      ensures maxRetries > 0 ==> LastErrors(extract, skipped, offsets, maxRetries)
      ensures maxRetries <= 0 ==> forall i :: 0 <= i < |source| && fileName(source[i].name, source[i].url) !in old(store) ==>
        exists t :: 0 <= t < |skipped| && skipped[t].url == source[i].url
    {
      var scrapedCount, remaining := InitializeQueue(source);
      ghost var store0, c0 := store, calls;
      assert queue == BuildQueue(source, store0, fileName);
      processed, failed, skipped, offsets := 0, 0, [], [];
      var done := false;
      while !done
        invariant Tallied(source, extract, fileName, maxRetries, store0, c0, queue, store, calls, processed, failed, skipped, offsets)
        invariant done ==> forall i :: 0 <= i < |queue| ==> queue[i].scraped
        decreases if done then 0 else 1 + CountUnscraped(queue)
      {
        done, processed, failed, skipped, offsets := Turn(source, extract, store0, c0, processed, failed, skipped, offsets);
      }
      ghost var q0 := BuildQueue(source, store0, fileName);
      ghost var m: nat := if maxRetries <= 0 then 0 else maxRetries;
      CountZero(queue);
      TimesIsProduct(CountUnscraped(q0), m);
      if maxRetries <= 0 {
        CoveredSource(source, store0, fileName, queue, skipped);
      }
      if maxRetries > 0 {
        SkipReasons(extract, skipped, offsets, maxRetries);
      }
    }

    /** The body of `run`'s loop: one round, and the tallies it updates; `done` once no row is pending. */
    method Turn(source: seq<SourceRow>, extract: (nat, string) -> Outcome, ghost store0: set<string>, ghost c0: nat,
                processed: nat, failed: nat, skipped: seq<Skip>, ghost offsets: seq<nat>)
      returns (done: bool, processed': nat, failed': nat, skipped': seq<Skip>, ghost offsets': seq<nat>)
      modifies this`queue, this`queueWrites, this`calls, this`store
      requires Tallied(source, extract, fileName, maxRetries, store0, c0, queue, store, calls, processed, failed, skipped, offsets)
      ensures Tallied(source, extract, fileName, maxRetries, store0, c0, queue, store, calls, processed', failed', skipped', offsets')
      ensures done ==> forall i :: 0 <= i < |queue| ==> queue[i].scraped
      ensures !done ==> CountUnscraped(queue) < CountUnscraped(old(queue))
    {
      ghost var previous, callsBefore, storeBefore := queue, calls, store;
      processed', failed', skipped', offsets' := processed, failed, skipped, offsets;
      var next, success, lastError, row := Round(extract);
      if next.None? {
        FinalRoundKeeps(source, extract, fileName, maxRetries, store0, c0, previous, queue, store, calls,
                        processed, failed, skipped, offsets);
        done := true;
        return;
      }
      done := false;
      if success {
        ScrapedRoundKeeps(source, extract, fileName, maxRetries, store0, c0, previous, queue, storeBefore, callsBefore, calls,
                          processed, failed, skipped, offsets, next.value.name, next.value.url);
        processed' := processed + 1;
      } else {
        var skip := Skip(next.value.name, next.value.url, Reason(lastError));
        SkippedRoundKeeps(source, extract, fileName, maxRetries, store0, c0, previous, queue, store, callsBefore, calls,
                          processed, failed, skipped, offsets, row, skip);
        failed' := failed + 1;
        skipped' := skipped + [skip];
        offsets' := offsets + [callsBefore];
      }
    }
  }

  /**
   * What holds after each round of `run`, with `store0` and `c0` the output
   * directory and the call count once the queue was built: rows only get
   * marked, files only get added, the calls stay within `max_retries` per
   * row marked so far, each tally counts a marked row, and each skip is a
   * listed row whose attempts all failed.
   */
  ghost predicate Tallied(source: seq<SourceRow>, extract: (nat, string) -> Outcome, file: Namer, maxRetries: int,
                          store0: set<string>, c0: nat, q: seq<Entry>, store: set<string>, calls: nat,
                          processed: nat, failed: nat, skipped: seq<Skip>, offsets: seq<nat>)
  {
    var q0 := BuildQueue(source, store0, file);
    var m: nat := if maxRetries <= 0 then 0 else maxRetries;
    Raises(q0, q) && store0 <= store &&
    calls >= c0 && (calls - c0) + Times(CountUnscraped(q), m) <= Times(CountUnscraped(q0), m) &&
    |skipped| == failed &&
    (forall t :: 0 <= t < |skipped| ==> Listed(source, skipped[t].name, skipped[t].url)) &&
    processed + failed + CountUnscraped(q) <= CountUnscraped(q0) &&
    SkipsFrom(extract, skipped, offsets, maxRetries) &&
    (maxRetries <= 0 ==>
      calls == c0 && store == store0 && processed == 0 &&
      (forall s :: s in skipped ==> s.reason == "Unknown error") &&
      Covered(q0, q, skipped))
  }

  /** A round that finds nothing pending, and leaves every row marked, keeps the tallies. */
  lemma FinalRoundKeeps(source: seq<SourceRow>, extract: (nat, string) -> Outcome, file: Namer, maxRetries: int,
                        store0: set<string>, c0: nat, q: seq<Entry>, q': seq<Entry>, store: set<string>, calls: nat,
                        processed: nat, failed: nat, skipped: seq<Skip>, offsets: seq<nat>)
    requires Tallied(source, extract, file, maxRetries, store0, c0, q, store, calls, processed, failed, skipped, offsets)
    requires Raises(q, q') && (forall i :: 0 <= i < |q'| ==> q'[i].scraped) && q' == FixStale(q, q, store, file)
    ensures Tallied(source, extract, file, maxRetries, store0, c0, q', store, calls, processed, failed, skipped, offsets)
  {
    RaisesTrans(BuildQueue(source, store0, file), q, q');
    CountZero(q');
    if maxRetries <= 0 {
      NoStaleRows(source, q, store, file);
      FixStaleNone(q, q, store, file);
    }
  }

  /** A round that scrapes its row within `max_retries` calls keeps the tallies, with one more processed. */
  lemma ScrapedRoundKeeps(source: seq<SourceRow>, extract: (nat, string) -> Outcome, file: Namer, maxRetries: int,
                          store0: set<string>, c0: nat, q: seq<Entry>, q': seq<Entry>, store: set<string>,
                          calls: nat, calls': nat, processed: nat, failed: nat, skipped: seq<Skip>, offsets: seq<nat>,
                          name: string, url: string)
    requires Tallied(source, extract, file, maxRetries, store0, c0, q, store, calls, processed, failed, skipped, offsets)
    requires maxRetries > 0
    requires Raises(q, q') && CountUnscraped(q') < CountUnscraped(q) && calls <= calls' <= calls + maxRetries
    ensures Tallied(source, extract, file, maxRetries, store0, c0, q', store + {file(name, url)}, calls',
                    processed + 1, failed, skipped, offsets)
  {
    RaisesTrans(BuildQueue(source, store0, file), q, q');
    TimesStep(CountUnscraped(q'), CountUnscraped(q), maxRetries);
  }

  /** A round whose every attempt failed keeps the tallies, with its row recorded as a skip. */
  lemma SkippedRoundKeeps(source: seq<SourceRow>, extract: (nat, string) -> Outcome, file: Namer, maxRetries: int,
                          store0: set<string>, c0: nat, q: seq<Entry>, q': seq<Entry>, store: set<string>,
                          calls: nat, calls': nat, processed: nat, failed: nat, skipped: seq<Skip>, offsets: seq<nat>,
                          row: nat, s: Skip)
    requires Tallied(source, extract, file, maxRetries, store0, c0, q, store, calls, processed, failed, skipped, offsets)
    requires Raises(q, q') && CountUnscraped(q') < CountUnscraped(q)
    requires calls <= calls' && calls' - calls <= (if maxRetries <= 0 then 0 else maxRetries)
    requires row < |q| && q[row].name == s.name && q[row].url == s.url
    requires q' == MarkUrl(FixStale(q, q[..row], store, file), s.url, true)
    requires SkipFrom(extract, s, calls, maxRetries)
    ensures Tallied(source, extract, file, maxRetries, store0, c0, q', store, calls',
                    processed, failed + 1, skipped + [s], offsets + [calls])
  {
    var q0 := BuildQueue(source, store0, file);
    var m: nat := if maxRetries <= 0 then 0 else maxRetries;
    RaisesTrans(q0, q, q');
    TimesStep(CountUnscraped(q'), CountUnscraped(q), m);
    assert Listed(source, s.name, s.url) by {
      assert s.name == q0[row].name == source[row].name;
      assert s.url == q0[row].url == source[row].url;
    }
    SkipsAppend(extract, skipped, offsets, s, calls, maxRetries);
    if maxRetries <= 0 {
      assert s.reason == "Unknown error";
      CoverRound(source, store, file, q, row, skipped, s);
    }
  }

  /** A skip entry recorded for the attempts that began at call `c`: they all failed, and the reason is their last error. */
  predicate SkipFrom(extract: (nat, string) -> Outcome, s: Skip, c: nat, maxRetries: int) {
    var a := Retry(extract, s.url, c, maxRetries, None);
    !a.success && s.reason == Reason(a.lastError)
  }

  /** Each skip entry, with the call at which its attempts began. */
  predicate SkipsFrom(extract: (nat, string) -> Outcome, skipped: seq<Skip>, offsets: seq<nat>, maxRetries: int) {
    |offsets| == |skipped| &&
    forall t :: 0 <= t < |skipped| ==> SkipFrom(extract, skipped[t], offsets[t], maxRetries)
  }

  lemma SkipsAppend(extract: (nat, string) -> Outcome, skipped: seq<Skip>, offsets: seq<nat>, s: Skip, c: nat, maxRetries: int)
    requires SkipsFrom(extract, skipped, offsets, maxRetries) && SkipFrom(extract, s, c, maxRetries)
    ensures SkipsFrom(extract, skipped + [s], offsets + [c], maxRetries)
  {
  }

  /** Each skip's reason is the error of the last of the `maxRetries` attempts that began at its offset. */
  predicate LastErrors(extract: (nat, string) -> Outcome, skipped: seq<Skip>, offsets: seq<nat>, maxRetries: int)
    requires |offsets| == |skipped|
  {
    forall t :: 0 <= t < |skipped| ==>
      offsets[t] + maxRetries - 1 >= 0 &&
      skipped[t].reason == Reason(Some(ErrorOf(extract(offsets[t] + maxRetries - 1, skipped[t].url))))
  }

  /** With at least one attempt, each skip's reason is the error of the last attempt on its URL. */
  lemma SkipReasons(extract: (nat, string) -> Outcome, skipped: seq<Skip>, offsets: seq<nat>, maxRetries: int)
    requires maxRetries > 0 && SkipsFrom(extract, skipped, offsets, maxRetries)
    ensures LastErrors(extract, skipped, offsets, maxRetries)
  {
    forall t | 0 <= t < |skipped|
      ensures skipped[t].reason == Reason(Some(ErrorOf(extract(offsets[t] + maxRetries - 1, skipped[t].url))))
    {
      assert SkipFrom(extract, skipped[t], offsets[t], maxRetries);
      RetryLastError(extract, skipped[t].url, offsets[t], maxRetries, None);
    }
  }

  /** Every row that was 'False' in `q0` and is marked in `q` has its URL among the skips. */
  predicate Covered(q0: seq<Entry>, q: seq<Entry>, skipped: seq<Skip>) {
    |q| == |q0| &&
    forall i :: 0 <= i < |q| && !q0[i].scraped && q[i].scraped ==>
      exists t :: 0 <= t < |skipped| && skipped[t].url == q[i].url
  }

  /** Marking a URL that has just been skipped keeps every marked row covered. */
  lemma CoveredStep(q0: seq<Entry>, q: seq<Entry>, skipped: seq<Skip>, s: Skip)
    requires Covered(q0, q, skipped)
    ensures Covered(q0, MarkUrl(q, s.url, true), skipped + [s])
  {
    var q' := MarkUrl(q, s.url, true);
    var sk := skipped + [s];
    forall i | 0 <= i < |q'| && !q0[i].scraped && q'[i].scraped
      ensures exists t :: 0 <= t < |sk| && sk[t].url == q'[i].url
    {
      if q[i].scraped {
        var t :| 0 <= t < |skipped| && skipped[t].url == q[i].url;
        assert sk[t] == skipped[t];
      } else {
        assert sk[|skipped|] == s;
      }
    }
  }

  /** A round that skips a row, with the output directory unchanged since the queue was built, keeps every marked row covered. */
  lemma CoverRound(source: seq<SourceRow>, store: set<string>, file: Namer, q: seq<Entry>, row: nat,
                   skipped: seq<Skip>, s: Skip)
    requires Raises(BuildQueue(source, store, file), q) && Covered(BuildQueue(source, store, file), q, skipped)
    requires row <= |q|
    ensures Covered(BuildQueue(source, store, file), MarkUrl(FixStale(q, q[..row], store, file), s.url, true), skipped + [s])
  {
    NoStaleRows(source, q, store, file);
    assert forall e :: e in q[..row] ==> e in q;
    FixStaleNone(q, q[..row], store, file);
    CoveredStep(BuildQueue(source, store, file), q, skipped, s);
  }

  /** Once every row is marked, every row that was 'False' at the start has its URL among the skips. */
  lemma CoveredSource(source: seq<SourceRow>, store: set<string>, file: Namer, q: seq<Entry>, skipped: seq<Skip>)
    requires Raises(BuildQueue(source, store, file), q)
    requires Covered(BuildQueue(source, store, file), q, skipped)
    requires forall i :: 0 <= i < |q| ==> q[i].scraped
    ensures forall i :: 0 <= i < |source| && file(source[i].name, source[i].url) !in store ==>
      exists t :: 0 <= t < |skipped| && skipped[t].url == source[i].url
  {
    var q0 := BuildQueue(source, store, file);
    forall i | 0 <= i < |source| && file(source[i].name, source[i].url) !in store
      ensures exists t :: 0 <= t < |skipped| && skipped[t].url == source[i].url
    {
      assert !q0[i].scraped && q[i].scraped && q[i].url == q0[i].url;
    }
  }

  /** With the output directory unchanged, no row of a queue built from it and only raised since is stale. */
  lemma NoStaleRows(source: seq<SourceRow>, q: seq<Entry>, store: set<string>, file: Namer)
    requires Raises(BuildQueue(source, store, file), q)
    ensures forall e :: e in q ==> !Stale(e, store, file)
  {
    var q0 := BuildQueue(source, store, file);
    forall e | e in q ensures !Stale(e, store, file) {
      var i :| 0 <= i < |q| && q[i] == e;
      assert q0[i] == Entry(source[i].name, source[i].url, file(source[i].name, source[i].url) in store);
    }
  }

  /** Without stale rows the in-scan fixes change nothing. */
  lemma {:induction false} FixStaleNone(q: seq<Entry>, rows: seq<Entry>, store: set<string>, file: Namer)
    requires forall e :: e in rows ==> !Stale(e, store, file)
    ensures FixStale(q, rows, store, file) == q
  {
    if rows != [] {
      var n := |rows| - 1;
      assert rows[n] in rows;
      assert forall e :: e in rows[..n] ==> e in rows;
      FixStaleNone(q, rows[..n], store, file);
    }
  }

  /** Some source row has this name and url. */
  predicate Listed(source: seq<SourceRow>, name: string, url: string) {
    exists i :: 0 <= i < |source| && source[i].name == name && source[i].url == url
  }

  lemma ChangesSnoc(q: seq<Entry>, e: Entry, url: string, flag: bool)
    ensures Changes(q + [e], url, flag) == (Changes(q, url, flag) || (e.url == url && e.scraped != flag))
  {
    var r := q + [e];
    if Changes(q, url, flag) {
      var i :| 0 <= i < |q| && q[i].url == url && q[i].scraped != flag;
      assert r[i] == q[i];
    }
    if Changes(r, url, flag) {
      var i :| 0 <= i < |r| && r[i].url == url && r[i].scraped != flag;
      if i < |q| { assert q[i] == r[i]; }
    }
    assert r[|q|] == e;
  }
}
