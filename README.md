# BigFuture scholarship scraper: a verified model of its core

The repository scrapes scholarship pages from BigFuture (College Board) and
post-processes the saved records. This project models, in Dafny, the parts
of it that are sequential logic rather than browser, HTTP or file plumbing.
There are three groups.

- **The scrape queue** (`master_scraper.py`). `MasterScraper` keeps a queue
  of rows `(Scholarship Name, URL, is_scraped)` next to a directory of saved
  JSON records. It builds the queue from the source list, hands out the first
  row still to scrape, retries the detail scraper up to `max_retries` times
  per row, and marks every row done, whether it succeeded or was skipped.
  - The model is the class `Orchestrator.MasterScraper`. `queue` is a
    sequence of rows and `store` is the set of file names in the output
    directory.
  - The detail scraper is a function from (call number, url) to an outcome,
    and the class counts its calls.
  - The main theorems: `run` terminates, it calls the scraper at most
    (initially unscraped rows) × `max_retries` times, and it leaves every
    row marked.
- **The text parsers of the detail scraper** (`bigfuture_scraper.py`). The
  Selenium driver is abstracted away. The page body is a string split into
  lines, and element texts are plain strings. Modelled parsers:
  - the location string;
  - the location list items;
  - the "Details" section fallback;
  - requirements, with order-preserving dedup;
  - the opens/closes dates;
  - the foundation and description heuristics;
  - the essay/need/merit flags;
  - the dollar-amount match;
  - the page-exists check;
  - the file name of `save_to_json`.
- **JSON post-processing** (`discover_filters.py`, `generate_schema.py`,
  `generate_csv.py`). All three share one `Json` datatype; an object is an
  ordered list of members, as a Python dict is. The model covers:
  - `flatten_dict` and the comma-list parsers;
  - the in-place accumulation of filter statistics, filter grading and the
    filter report;
  - JSON type inference into a map from path to a set of types, which is
    proved monotone, idempotent and independent of file order;
  - the Supabase column mapping and the schema summary;
  - dotted-path lookup and the 32-column CSV row.

Shared modules: `Wrappers` (Option, Result) and `Text`, which holds ASCII
versions of `strip`, `lower`, `split`, `join`, `in` and the line scans.
`StringOrder` is Python's string order, with a verified sort of a set of
strings. `Dicts` is a Python dict as an association list that keeps
insertion order. `JsonValues` holds the document datatype, truthiness,
`str()` and `flatten_dict`.

The scraper's interface documents a page-not-found error. `run` catches it
like every other exception, so the model gives it no special case: it is a
`Failure` outcome whose message becomes `last_error`.

## Model

| member | source | states |
|---|---|---|
| Orchestrator.CleanName | master_scraper.py:24-33 | the sanitised stem has at most 100 characters, no ' ', only word characters, whitespace other than ' ', and '-', and is the full sanitised name when that fits |
| Orchestrator.GenerateFilename | master_scraper.py:24-37 | always ends in ".json"; the cleaned name when it is non-empty, otherwise the text after the url's last '/' |
| Orchestrator.SlashUrlFilename | master_scraper.py:34-37 | with no usable name, a url ending in '/' gives the file name ".json" |
| Orchestrator.BuildQueue | master_scraper.py:71-98 | one row per source row, same order, name and url; the flag is set exactly when the row's file exists |
| Orchestrator.CountsAddUp | master_scraper.py:70-98 | scraped plus remaining equals the number of rows |
| Orchestrator.CountZero | master_scraper.py:151-159 | the remaining count is zero exactly when every row is marked scraped |
| Orchestrator.CountMono | master_scraper.py:110-133 | raising flags never increases the number of unscraped rows |
| Orchestrator.CountStrict | master_scraper.py:110-133 | raising one flag that was 'False' strictly lowers the unscraped count |
| Orchestrator.RaisesTrans | master_scraper.py:110-133 | successive flag-raising updates compose into one |
| Orchestrator.MarkUrl | master_scraper.py:113-124 | the rebuilt row list has the same length; each row with the url gets the flag, all others and the order are unchanged |
| Orchestrator.MarkUrlIdempotent | master_scraper.py:110-133 | marking a url twice is marking it once |
| Orchestrator.MarkUrlUnchanged | master_scraper.py:125-131 | no flag differs exactly when marking leaves the queue as it was, so skipping the rewrite loses nothing |
| Orchestrator.MarkUrlCount | master_scraper.py:110-133 | marking as scraped only raises flags; it lowers the count when some matching row was 'False' |
| Orchestrator.ChangesSnoc | master_scraper.py:117-124 | the `updated` test over rows plus one more is the old test or a differing flag on the new row |
| Orchestrator.FirstPending | master_scraper.py:135-149 | the index of the first row marked 'False' whose file is absent, none exactly when no such row exists |
| Orchestrator.FirstPendingFrom | master_scraper.py:139-147 | the same search from a given row on |
| Orchestrator.FirstPendingIs | master_scraper.py:139-147 | a pending row with no pending row before it is the one returned |
| Orchestrator.FixStale | master_scraper.py:139-146 | the queue after the scan's in-place fixes has the same length |
| Orchestrator.FixStaleRaises | master_scraper.py:139-146 | the fixes made during the scan only raise flags |
| Orchestrator.FixStaleMarks | master_scraper.py:143-145 | a row sharing its url with a scanned stale row ends up marked |
| Orchestrator.GetNextFixesEarlier | master_scraper.py:135-149 | after returning row k, every earlier 'False' row whose file exists is marked 'True' |
| Orchestrator.NoPendingAllScraped | master_scraper.py:135-149 | when nothing is pending, the scan leaves every row marked |
| Orchestrator.RetryBounds | master_scraper.py:216-246 | the retry loop makes at most `max_retries` calls (none when it is ≤ 0), stops at the first success, and uses them all when none succeeds |
| Orchestrator.RetryLastError | master_scraper.py:235-239 | when every attempt fails, the recorded error is that of the last call |
| Orchestrator.Reason | master_scraper.py:253 | the skip reason is never empty: the last error when there is one, else "Unknown error" |
| Orchestrator.TimesIsProduct | master_scraper.py:186-265 | the repeated-addition bound used by `run` equals the product |
| Orchestrator.MasterScraper.constructor | master_scraper.py:16-22 | empty queue, the given output directory and retry count, `generate_filename` as the namer |
| Orchestrator.MasterScraper.InitializeQueue | master_scraper.py:48-108 | the queue becomes `BuildQueue` of the source; scraped and remaining counts add up to the total; the queue file is written once |
| Orchestrator.MasterScraper.ScanSource | master_scraper.py:69-83 | the rows built are `BuildQueue` of the source, one per source row with its name and URL, and the count is the number of rows whose file exists |
| Orchestrator.MasterScraper.UpdateQueue | master_scraper.py:110-133 | the queue becomes `MarkUrl` of the old one; `updated` says whether some flag differed; the file is rewritten only then |
| Orchestrator.MasterScraper.GetNextUnscraped | master_scraper.py:135-149 | returns the first pending row of the queue as it was on entry, or none; stale rows scanned on the way are marked |
| Orchestrator.MasterScraper.CountRemaining | master_scraper.py:151-159 | the number of rows marked 'False' |
| Orchestrator.MasterScraper.SaveScholarshipJson | master_scraper.py:161-169 | the record's file, named from the queue's own name and url, is added to the store, so `is_scraped(name, url)` holds |
| Orchestrator.MasterScraper.ScrapeEntry | master_scraper.py:213-246 | runs the retry loop; on success the file is saved and the url marked; on failure store and queue are unchanged |
| Orchestrator.MasterScraper.Round | master_scraper.py:186-258 | one iteration: with a row, the new queue is the stale-fixed queue with that row's url marked, the unscraped count strictly drops, and success, the last error and the calls used are those of the retry loop on that url (`Retry`); without a row, every row is marked, only stale rows are fixed and nothing is called |
| Orchestrator.MasterScraper.Run | master_scraper.py:171-265 | terminates with every row marked and keeping its name and url; calls ≤ initially unscraped × `max_retries`; processed + failed ≤ rows initially unscraped; one skip entry per failure, each a listed row whose `max_retries` attempts from its recorded call all failed, with the last attempt's error as its reason; with `max_retries` ≤ 0 no call, every initially unscraped row's url is skipped, and every reason is "Unknown error" |
| Orchestrator.MasterScraper.Turn | master_scraper.py:186-258 | one pass of `run`'s loop keeps the tallies' invariant (`Tallied`) and either ends with every row marked or lowers the unscraped count |
| Location.Read | bigfuture_scraper.py:648-661 | an item with ':' opens a field whose name is lower-case with '_' for ' ' |
| Location.ReadPlain | bigfuture_scraper.py:648-649 | an item is continuation text exactly when its stripped text has no ':' |
| Location.ReadField | bigfuture_scraper.py:655-658 | "Field: Value" opens field `Field` normalised, with value `Value` |
| Location.ReadsKeyLike | bigfuture_scraper.py:642-661 | every field name read from the split is normalised |
| Location.ParseLocationString | bigfuture_scraper.py:631-674 | the scraper's loop returns exactly the parse of the string |
| Location.ParseLocationItems | bigfuture_scraper.py:644-671 | the loop over the items equals the fold over their readings |
| Location.ScanItem | bigfuture_scraper.py:648-665 | one item read into the scanner state (field, values, saved dict) moves it exactly as the fold step `Step` does |
| Location.ParseKeys | bigfuture_scraper.py:649-669 | every key of the result is non-empty, lower-case and free of spaces |
| Location.DropsLeading | bigfuture_scraper.py:662-665 | colon-free items before the first field are dropped |
| Location.RunContinue | bigfuture_scraper.py:662-665 | colon-free items after a named field are appended to its values, in order |
| Location.LastFieldWins | bigfuture_scraper.py:650-669 | a field's stored value is its own value joined with its continuations, whatever came before, so a repeated key overwrites |
| Location.ParseNone | bigfuture_scraper.py:671 | the result is None exactly when no item opens a field with a non-empty name |
| Location.DocumentedExample | bigfuture_scraper.py:634 | "K1: v1, K2: v2, K3: v3, w1, w2" gives {k1: v1, k2: v2, k3: "v3, w1, w2"}, the docstring's example in general form |
| Location.ItemPair | bigfuture_scraper.py:614-623 | a list item gives a pair only with both sides of its first ':' non-empty; the key is normalised, the value stripped |
| Location.LocationStructure | bigfuture_scraper.py:605-626 | the item loop returns the collected dict, None when it is empty |
| Location.StructureIsDict | bigfuture_scraper.py:613-624 | the loop builds `dict(pairs)` of the pairs in item order |
| Location.StructureShape | bigfuture_scraper.py:613-626 | distinct normalised keys with non-empty values; empty exactly when no item gives a pair |
| Location.StructureLastWins | bigfuture_scraper.py:624 | a key holds the value of its last item |
| Details.DetailsFallback | bigfuture_scraper.py:676-747 | an unreadable body gives None; otherwise the section scan of its lines |
| Details.ScanDetails | bigfuture_scraper.py:684-744 | the two loops compute the section dict after the first 'Details' line |
| Details.ReadSection | bigfuture_scraper.py:700-742 | the line loop equals the scanner over the window, up to the first stop line |
| Details.ReadLine | bigfuture_scraper.py:701-738 | one line: skip a control line, open a header, or collect an accepted value |
| Details.DetailsShape | bigfuture_scraper.py:695-742 | non-empty, distinct keys, each one of the five headers normalised; every value longer than 2; the location value is the ", "-join of one or more kept lines, each naming a place, no non-location item, and longer than 2 |
| Details.LocationValueNamesPlace | bigfuture_scraper.py:728-732 | a "location" value contains one of the location keywords |
| Details.LocationValueClean | bigfuture_scraper.py:728-732 | a "location" value contains none of the non-location keywords, even across the ", " joins |
| Details.LocationHeader | bigfuture_scraper.py:712-728 | only the header "Location" normalises to "location" |
| Details.NoNonLocationJoin | bigfuture_scraper.py:730-742 | lines without a non-location keyword join into a value without one |
| Details.ScanStops | bigfuture_scraper.py:704-705 | nothing after the first stop line is read |
| Details.SkipControl | bigfuture_scraper.py:708-709 | "Expand All" and "Collapse All" lines change nothing |
| Details.DetailsPrefix | bigfuture_scraper.py:700 | lines more than 49 past 'Details' never change the result |
| Details.DetailsAt | bigfuture_scraper.py:684-700 | the result is the section dict of the 49-line window after the anchor |
| Requirements.ExtractRequirements | bigfuture_scraper.py:462-503 | an unreadable body gives None; otherwise the text path, then the list-item fallback, deduplicated |
| Requirements.ReadRequirements | bigfuture_scraper.py:478-485 | the line loop with its `break` keeps exactly `Collect` of the window |
| Requirements.ReadListItems | bigfuture_scraper.py:489-496 | the list-item loop keeps exactly the items passing the length, 'http' and keyword tests |
| Requirements.DedupSpec | bigfuture_scraper.py:499 | same elements, no repeats, in order of first occurrence |
| Requirements.DedupHead | bigfuture_scraper.py:499 | the first requirement stays first |
| Requirements.DedupDistinct | bigfuture_scraper.py:499 | a list without repeats is unchanged |
| Requirements.CollectKeeps | bigfuture_scraper.py:479-485 | each kept line is a stripped line longer than 3 that starts with neither '*' nor '•' |
| Requirements.ListItemsKeep | bigfuture_scraper.py:491-496 | each list-item requirement is stripped and passes the filter |
| Requirements.CollectStops | bigfuture_scraper.py:481-482 | nothing from the first section word on is read |
| Requirements.RequirementsShape | bigfuture_scraper.py:470-500 | a result is non-empty, has no repeats, is stripped and filtered; the text path reads at most 19 lines |
| Requirements.TextPathWins | bigfuture_scraper.py:488 | the list items are consulted only when the text path keeps nothing |
| Requirements.FirstRequirement | bigfuture_scraper.py:470-500 | a kept line right after 'Requirements' is the first entry of the result |
| Dates.DateAt | bigfuture_scraper.py:397 | a matched date has 8 to 10 characters |
| Dates.DateAtIff | bigfuture_scraper.py:397 | the matcher finds d exactly when d has the form `\d{1,2}/\d{1,2}/\d{4}` and starts the text |
| Dates.SearchFrom | bigfuture_scraper.py:397 | the leftmost position from i on where the pattern matches, none exactly when it matches nowhere |
| Dates.SearchFound | bigfuture_scraper.py:397-399 | a found date is the capture of a match with no match further left |
| Dates.SearchMissing | bigfuture_scraper.py:397-409 | without a result the pattern matches nowhere |
| Dates.ElementDate | bigfuture_scraper.py:401-406 | the element fallback gives a non-empty stripped text |
| Dates.ExtractDates | bigfuture_scraper.py:390-423 | an unreadable body gives None |
| Dates.DatesShape | bigfuture_scraper.py:392-420 | keys among opens/closes, distinct, opens first; each value is that field's page date or element fallback, non-empty |
| Dates.DatesNone | bigfuture_scraper.py:420 | None exactly when neither field was found |
| Dates.PageDateIsDate | bigfuture_scraper.py:397-399 | a date found in the page text wins over the elements and has the date form |
| Dates.TagFound | bigfuture_scraper.py:397 | a date right after the tag and a space is what the search returns |
| Dates.OpensCloses | test_bigfuture_scraper.py:137-148 | "Opens: d1\nCloses: d2" gives {opens: d1, closes: d2} for any dates d1, d2 |
| Dates.BothFound | bigfuture_scraper.py:396-420 | both searches succeeding gives the two-entry dict, opens first |
| Foundation.ExtractFoundation | bigfuture_scraper.py:208-264 | an unreadable body gives None; otherwise the line search, then the element texts |
| Foundation.NearAnchor | bigfuture_scraper.py:217-252 | a line result is a stripped line among the 10 strictly before the anchor, which is not line 0, and passes one of the two rules |
| Foundation.AnchorOnFirstLine | bigfuture_scraper.py:224 | an anchor on line 0 switches the line search off |
| Foundation.NameOnlyWithoutKeyword | bigfuture_scraper.py:226-252 | the 2-to-6-word rule answers only when no line in the window has an organisation keyword |
| Foundation.SponsorAboveAnchor | test_bigfuture_scraper.py:51-81 | an organisation line directly above the anchor is returned |
| Foundation.CapitalNotDateOrAmount | bigfuture_scraper.py:249-251 | a line starting with a capital is never a date or an amount, so the `re.match` test never rejects |
| Foundation.LinesBeforeElements | bigfuture_scraper.py:224-262 | the lines decide first; the element texts only when the lines give nothing, and then a text of 6 to 99 characters |
| Description.ExtractDescription | bigfuture_scraper.py:425-460 | an unreadable body gives None; otherwise the line search, then the meta content |
| Description.AfterAnchor | bigfuture_scraper.py:438-449 | a line result is a stripped line among the 9 after the anchor, longer than 50, with a '.', not a date or amount line |
| Description.NoAnchor | bigfuture_scraper.py:438-454 | without an anchor the meta description is returned |
| Description.FirstSentence | bigfuture_scraper.py:440-449 | the first qualifying line after the anchor is returned |
| PageFields.FlagKey | bigfuture_scraper.py:757-762 | each flag is stored under one of its three keys |
| PageFields.FlagKeyInjective | bigfuture_scraper.py:757-762 | distinct flags use distinct keys |
| PageFields.YesNo | bigfuture_scraper.py:758 | the value is "Yes" or "No" |
| PageFields.ExtractFlags | bigfuture_scraper.py:749-765 | the loop over element texts returns the flags dict, None when it is empty |
| PageFields.FlagValue | bigfuture_scraper.py:755-762 | each flag's value after the loop is given by the last text that mentions it |
| PageFields.FlagsShape | bigfuture_scraper.py:751-763 | at most the three flag keys, each once, each "Yes" or "No" |
| PageFields.FlagPresent | bigfuture_scraper.py:755-763 | a flag is present exactly when some text mentions its phrase |
| PageFields.FlagLast | bigfuture_scraper.py:755-762 | the last mentioning text decides: "Yes" exactly when it contains 'Yes' |
| PageFields.AmountRun | bigfuture_scraper.py:345 | the longest run of digits and commas at the start |
| PageFields.DollarFrom | bigfuture_scraper.py:345 | the leftmost position where `\$[\d,]+` can start |
| PageFields.AmountMatch | bigfuture_scraper.py:345-347 | a match is '$' followed by one or more digits or commas; none exactly when no '$' is followed by one |
| PageFields.AmountMatchAt | bigfuture_scraper.py:345-347 | the match is the leftmost and cannot be extended |
| PageFields.AmountMatchIdempotent | bigfuture_scraper.py:345-347 | matching the match again gives itself |
| PageFields.AmountText | bigfuture_scraper.py:342-348 | a blank text gives nothing, so the cascade moves on |
| PageFields.AmountShape | bigfuture_scraper.py:337-375 | the first non-blank text decides: its '$' amount, or the whole stripped text when it has none |
| PageFields.PageMissing | bigfuture_scraper.py:804-821 | the page is missing only when the first banner carries the not-found message; later banners never matter; no banner means it exists |
| PageFields.SaveName | bigfuture_scraper.py:897-911 | empty data is the error "No data to save."; any name returned ends in ".json" |
| PageFields.ExplicitName | bigfuture_scraper.py:910-911 | an explicit name ending in ".json" is kept, any other gets the suffix |
| PageFields.DefaultNameFrom | bigfuture_scraper.py:902-908 | without a name given: a truthy string name gives its sanitised stem; otherwise a missing url gives ".json", a string url its last '/' segment (holding no '/') plus ".json"; a truthy non-string name or a non-string url is an error |
| JsonValues.ChildKey | discover_filters.py:33 | a child key starts with "parent." under a non-empty parent, is the key itself at top level |
| JsonValues.FlattenNoObj | discover_filters.py:29-38 | no value of a flattened dict is a dict |
| JsonValues.FlattenPrefix | discover_filters.py:29-38 | under a non-empty parent every flattened key starts with "parent." |
| JsonValues.FlattenEmptyMember | discover_filters.py:34-35 | a member holding an empty dict contributes no key |
| JsonValues.FlattenFlat | generate_csv.py:13-22 | a flat dict with distinct keys flattens to itself |
| Filters.CleanPieces | discover_filters.py:49 | at most as many pieces as were split |
| Filters.CleanPiecesSpec | discover_filters.py:49 | the kept pieces are exactly the non-blank stripped pieces, each non-empty and stripped |
| Filters.NoCommaPieces | discover_filters.py:49 | no piece of a ',' split holds a ',' |
| Filters.ParseListSpec | discover_filters.py:41-50 | None gives []; a string its stripped non-empty pieces, none holding ','; a list one stripped string per element; anything else one stripped string |
| Filters.Categorize | discover_filters.py:113-128 | excellent exactly when presence ≥ 10% and 5 ≤ unique ≤ 100; poor exactly when presence < 5% and unique > 50 |
| Filters.PresenceMonotone | discover_filters.py:113-128 | more presence never gives a worse grade for the same number of values |
| Filters.NumberOf | discover_filters.py:89 | integers and booleans count as numbers, nothing else does |
| Filters.FilterDiscovery.constructor | discover_filters.py:152-155 | the accumulators start empty |
| Filters.FilterDiscovery.AnalyzeScholarship | discover_filters.py:53-110 | True exactly for a parsed object; the accumulators become the fold of the file's flattened items |
| Filters.FilterDiscovery.ScanField | discover_filters.py:68-102 | one flattened field moves the accumulators exactly as the fold step `Step`: skipped and non-filterable keys change nothing |
| Filters.FilterDiscovery.AddEach | discover_filters.py:98-102 | the value loop adds the kept values to the field's set and changes no other accumulator |
| Filters.AddValuesSpec | discover_filters.py:98-102 | the field gains exactly its kept values, created on first use; other fields are unchanged |
| Filters.DocGood | discover_filters.py:95-102 | every recorded value set is non-empty and holds no 'None', 'null', 'N/A' or '' |
| Filters.DocGrows | discover_filters.py:58-110 | counts, sets and number lists only grow; an unparsed file leaves them unchanged |
| Filters.ItemsCount | discover_filters.py:68-80 | over distinct keys, each counted key present gains exactly one and every other count stays |
| Filters.DocCount | discover_filters.py:63-80 | a parsed file adds one to the count of each counted key of its flattened form, and only to those |
| Filters.SkipNeverCounted | discover_filters.py:70-73 | a key of the skip list is never counted |
| Filters.InfoOf | discover_filters.py:188-197 | the info names its field |
| Filters.Bucket | discover_filters.py:199-206 | every info in a list has that list's grade |
| Filters.Buckets | discover_filters.py:187-206 | the loop builds the four lists, each the fields of its grade in order |
| Filters.BucketsPartition | discover_filters.py:187-206 | every field lands in exactly one list; the lengths add up to the number of fields |
| Filters.BucketFields | discover_filters.py:188-197 | every info in a list describes its own field |
| Filters.MakeEntry | discover_filters.py:298-310 | at most 100 values, the smallest in sorted order and distinct; the full unique count is kept; the grade is from the full count |
| Filters.AnalyzeAll | discover_filters.py:160-168 | the accumulators become the fold over all files; `errors` counts the failed ones |
| Filters.Entries | discover_filters.py:298-310 | one entry per key in order, each describing its field: presence, unique count, grade from the full count, and the first `min(100, unique)` values in sorted order, distinct, drawn from the field and below every value left out |
| Filters.BucketsGraded | discover_filters.py:182-206 | the length of each grade list built by the loop over the counted fields equals the number of counted fields of that grade |
| Filters.Discover | discover_filters.py:131-317 | no report without files; the summary counts files and filter fields, and each grade count equals the number of counted fields of that grade; one entry per field with values, sorted by name |
| Schema.KindOf | generate_schema.py:14-31 | booleans are "boolean" and never "integer"; each kind of value has exactly one type |
| Schema.NameInjective | generate_schema.py:14-31 | distinct types have distinct names |
| Schema.AddKinds | generate_schema.py:39 | adding types at a path adds that path and keeps all others |
| Schema.Sample | generate_schema.py:55 | the sample is the first min(5, n) elements |
| Schema.SchemaBuilder.constructor | generate_schema.py:228 | the schema starts empty |
| Schema.SchemaBuilder.AnalyzeValue | generate_schema.py:34-74 | the in-place recursion leaves the schema `Analyze` describes |
| Schema.SchemaBuilder.AnalyzeElements | generate_schema.py:55-62 | the loop over the sampled elements returns the set of their kinds and leaves the schema that analysing their object members describes |
| Schema.SchemaBuilder.AnalyzeMembers | generate_schema.py:45-47 | the member loop analyses each member at its child path, in order |
| Schema.SchemaBuilder.AnalyzeFile | generate_schema.py:77-96 | True exactly for a parsed file; a dict's members go to their own keys, any other value to "" |
| Schema.AnalyzeFiles | generate_schema.py:228-240 | the schema of all files, and the number that failed |
| Schema.AnalyzeAdds | generate_schema.py:34-74 | analysing adds the value's own contribution, whatever was there before |
| Schema.AnalyzeGrows | generate_schema.py:34-74 | the schema only grows: no path and no type is removed |
| Schema.AnalyzeIdempotent | generate_schema.py:34-74 | analysing the same value twice at one path is analysing it once |
| Schema.AnalyzeCommutes | generate_schema.py:34-74 | two values may be analysed in either order |
| Schema.TypeRecorded | generate_schema.py:39 | the value's own type is recorded at its path |
| Schema.MemberRecorded | generate_schema.py:44-47 | each member of a non-empty object has its type recorded at "path.key" (or "key" at top level) |
| Schema.ItemTypes | generate_schema.py:50-68 | for a non-empty list the types of its first five elements are at "path[]" |
| Schema.FirstFive | generate_schema.py:55 | elements after the fifth are never looked at |
| Schema.EmptyArray | generate_schema.py:50-74 | an empty list records only "array" at its path and creates no "path[]" entry |
| Schema.FileIdempotent | generate_schema.py:77-96 | reading a file twice adds nothing more |
| Schema.FilesCommute | generate_schema.py:77-96 | the schema does not depend on the order in which two files are read |
| Schema.FileRoot | generate_schema.py:84-89 | a non-dict document has its type at ""; a dict with non-empty keys records nothing there |
| Schema.AnalyzeKeepsEmpty | generate_schema.py:34-74 | analysing at a non-empty path creates only non-empty paths |
| Schema.SupabaseType | generate_schema.py:99-171 | nullable exactly when "null" is in the set or nothing else is; a note only on a jsonb column |
| Schema.OnlyNull | generate_schema.py:104-109 | only "null", or nothing, gives a nullable text column |
| Schema.StringColumn | generate_schema.py:112-129 | strings alone give date for a name containing date, opens or closes, text otherwise |
| Schema.DateOnlyFromStrings | generate_schema.py:112-118 | a date column comes only from strings alone and a date-like name |
| Schema.IntegerColumn | generate_schema.py:130-134 | integers alone give an integer column |
| Schema.BooleanColumn | generate_schema.py:145-149 | booleans alone give a boolean column |
| Schema.NumberColumn | generate_schema.py:135-144 | any set with "number" in it gives numeric |
| Schema.ArrayColumn | generate_schema.py:150-157 | without "number", a list anywhere in the set gives jsonb with the array note |
| Schema.ObjectColumn | generate_schema.py:158-164 | without "number" or a list, an object anywhere in the set gives jsonb with the nested-object note |
| Schema.MixedColumn | generate_schema.py:165-171 | the mixed note goes only to two or more of string, integer and boolean |
| Schema.TypeNamesSpec | generate_schema.py:194 | `json_types` lists exactly the set's names, sorted, each once |
| Schema.RootCount | generate_schema.py:199-202 | the root count is at most the number of fields |
| Schema.GenerateSchemaJson | generate_schema.py:174-204 | total is the schema size; marker paths are skipped and every other path listed, sorted, with its description; root plus nested equals the listed fields |
| Schema.Summarize | generate_schema.py:186-202 | the same for any way of describing a field |
| Schema.ListFieldsSpec | generate_schema.py:188-196 | the listed entries are exactly the non-marker paths, sorted, each with its own description |
| Schema.ItemEntryListed | generate_schema.py:190-191 | "path[]" is skipped exactly when the path is non-empty and does not start with "[]" |
| Schema.MarkerNested | generate_schema.py:199 | a skipped item-type path would have been nested |
| CsvExport.GetNestedValue | generate_csv.py:25-42 | the loop returns the value reached by the dotted path, or the default on a non-dict, a missing key or null |
| CsvExport.LookupNotNull | generate_csv.py:34-35 | a value reached by a non-empty path is never null |
| CsvExport.FirstStepDefault | generate_csv.py:29-35 | a non-dict, or a missing or null first key, gives the default |
| CsvExport.LeafString | generate_csv.py:25-42 | an existing string leaf is returned as it is; a missing or null one gives the default |
| CsvExport.TwoKeys | generate_csv.py:25-42 | the same two levels down |
| CsvExport.TruthyStrsSpec | generate_csv.py:38-39 | a list leaf renders exactly its truthy elements, all of them when all are truthy |
| CsvExport.StringList | generate_csv.py:51-54 | a string gives its stripped non-empty ',' pieces joined with "; ": no ',' and no outer whitespace |
| CsvExport.ListIdempotent | generate_csv.py:45-55 | applying the function to its own output changes nothing |
| CsvExport.ListCellClean | generate_csv.py:78-98 | every list-normalised column is comma-free, stripped, and a fixed point |
| CsvExport.NullList | generate_csv.py:47-48 | None gives '' |
| CsvExport.GetOr | generate_csv.py:66-89 | `.get(k, default)`: the value when present, else the default |
| CsvExport.CsvRows | generate_csv.py:172-182 | one row per file that yields one, and rows plus errors equal the number of files |
| CsvExport.Collect | generate_csv.py:176-182 | the same loop for any row extractor |
| CsvExport.KeysAreColumns | generate_csv.py:65-99 | the row's keys are the header of `main`, in its order |
| CsvExport.RowColumns | generate_csv.py:65-99 | every row has exactly the 32 header columns, in order |
| CsvExport.RowNeedsDict | generate_csv.py:58-104 | a row exists exactly for a dict whose 'dates' is missing or a dict and whose requirements list holds only strings |
| CsvExport.NullDates | generate_csv.py:68-69 | a present but null 'dates' makes the file an error |
| CsvExport.VariesIsEmpty | generate_csv.py:71 | "Award Amount Varies" gives an empty dollar amount |
| CsvExport.PlainAmount | generate_csv.py:71 | an amount without that phrase is its stripped text |
| CsvExport.RequirementsList | generate_csv.py:87 | a list of strings is joined with "; "; a non-string element makes the file an error |
| CsvExport.NoRequirements | generate_csv.py:87 | a missing 'requirements' gives '' |

## Left out

- Browser and HTTP access (Selenium, requests, BeautifulSoup): `_setup_driver`, `_expand_all_sections`, `scrape`, `scrape_scholarship`, `_extract_urls`, the selector cascades of `_extract_name` and `_extract_status`, and the accordion path of `_extract_details` (bigfuture_scraper.py:505-597). They are foreign calls. The model starts from the texts they would return: the page body, the element texts and the banner texts.
- The element lookups of `_extract_amount`: the model takes the texts its selectors reach, in order (`PageFields.AmountOf`).
- File and CSV I/O: reading and writing the queue CSV, `json.load`/`json.dump`, `glob`, the CSV writer and file existence. The output directory is the set `store`; a file that cannot be read or parsed is `None`.
- The detail scraper inside `run` is a function of the call number and the url, so the model does not depend on real pages. Its exceptions and empty results are the `Failure` and `NoData` outcomes.
- Orchestrator.MasterScraper.GetNextUnscraped: reads a snapshot of the queue taken on entry. The source reads the queue file while `update_queue` rewrites it, and that interleaving is not modelled.
- Orchestrator.MasterScraper.Run: does not model lines 206-211, the second `is_scraped` check. In a sequential run `get_next_unscraped` has just established that the row's file is absent, so the branch cannot be taken.
- The `time.sleep` delays and all progress printing in `run` and the three scripts: timing and output only.
- Floating point: `extract_numeric_gpa`, `gpa_values` and the GPA statistics, and percentages and their rounding. `categorize_filter` is modelled with integer cross-multiplication, which is exact where float division can round at the boundaries. `Json` has no float value, so "number" never arises from a document.
- Filters.Discover: orders the grade lists by field name, whereas the source sorts by presence count, most common first (discover_filters.py:179). Set iteration order is not modelled; the partition into grades does not depend on the order.
- JsonValues.PyStr: strings inside a list or dict are put between single quotes as they are. Python's `repr` also escapes quotes, backslashes and control characters and switches to double quotes for a string holding a single quote; those rules are not modelled, because the exported text only feeds CSV cells and filter values.
- Schema.SupabaseType: the "Mixed types" note keeps the set of kinds rather than the joined text, which depends on set iteration order (generate_schema.py:170).
- The file-name checks in `Orchestrator.CleanName` and `PageFields.DefaultName`, and the string helpers `strip`, `lower`, `split` (including the whitespace-only `str.split()`), `str.isupper`, `\w`, `\s` and `\d`, use ASCII. Python's `re` and `isupper` also accept non-ASCII digits and capitals. Full Unicode semantics are not modelled.
- `analyze_dates.py` (date parsing with `datetime` and the clock), `find_small_jsons.py` (a filesystem walk), `scraper.py` (an HTTP crawl), `scraper_protocol.py` and `scholarship_detail_scraper.py` (a protocol and an alias): not part of this model.
- The unit test's selector assertion (test_bigfuture_scraper.py:39) does not match the selector in the code, so it is not a property here.
