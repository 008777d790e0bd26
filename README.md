# Intel ARK dataset pipeline — a Dafny model

The repository builds a dataset of Intel processor specifications in three steps:

1. **`scrape_intel_ark.py`** walks Intel's ARK product site. It goes from the processors
   panel to its categories, then to the series of each category, then to the SKUs on each
   series page, and finally to the specification page of each SKU. Its state lives in a
   SQLite database with three tables:
   - `discovered_series` and `discovered_skus` are written insert-or-ignore;
   - `scraped_skus` is written insert-or-replace.

   Every specification fact is appended to a long CSV, one row per fact. A run can stop
   and resume. The work queue is the discovered SKUs in SKU order, without those already
   `ok` (and without the `error` ones unless errors are retried), optionally capped.
2. **`convert_to_llm.py`** regroups the long CSV into one document per SKU:
   - metadata from the SKU's first row;
   - specification groups in a canonical order, the last value of a name winning.

   It writes the documents as JSON keyed by model name, as JSONL with flattened
   specifications, and as a text block.
3. **`convert_to_wide.py`** pivots the long CSV into one row per SKU and one column per
   `group: name`. Columns are sorted by canonical group, then by name; missing cells are
   filled with `""`.

The model follows the code's own structure, file by file:

| file | modules |
|---|---|
| shared | `Options` (Option/Result), `PyText` (the `str` operations and `normalize_text`), `Ordering` (string order, `sorted`), `Seqs` (filter, flat-map, distinctness), `ODicts` (insertion-ordered `dict`), `LongCsv` (the long CSV record, the `group: name` key, the canonical group list) |
| `scrape_intel_ark.py` | `ScrapeState` (the three tables as maps in the class `StateStore`), `Retry`, `Discovery` (the page readers; the browser is an oracle of raw records and outcomes), `Sink` (the CSV as an append-only log in the class `CsvFile`), `ScrapeRun` (the request filter, the discovery walk, the work queue, the scrape loop, `main`) |
| `convert_to_llm.py` | `LlmExport` |
| `convert_to_wide.py` | `WidePivot` |

Each loop of the source is a method with a loop. It is proved equal to a
specification function, and the properties the code promises are lemmas about that
function. The `StateStore` and `CsvFile` methods change their objects' fields, and their
contracts give the whole new state.

## Model

| member | source | states |
|---|---|---|
| PyText.LStrip | scrape_intel_ark.py:71 | The result is a suffix of `s` with no leading whitespace; all that was dropped is whitespace |
| PyText.RStrip | scrape_intel_ark.py:71 | The result is a prefix of `s` with no trailing whitespace; all that was dropped is whitespace |
| PyText.Strip | scrape_intel_ark.py:71 | Neither end of the result is whitespace, and it is no longer than `s` |
| PyText.StripIsSlice | scrape_intel_ark.py:71 | `strip()` is the slice of `s` that starts where `lstrip()` starts; everything before and after it is whitespace |
| PyText.StripTrailingBlank | convert_to_llm.py:93 | A trimmed string followed by one blank strips back to itself |
| PyText.StripEmpty | scrape_intel_ark.py:253 | `strip()` is empty exactly when the string is all whitespace (why a blank SKU id is dropped) |
| PyText.StripTrimmed | convert_to_llm.py:95 | A string with no whitespace at either end is its own `strip()` |
| PyText.Before | convert_to_llm.py:93 | `split(sub)[0]` is a prefix of `s` that holds no `sub`; when `s` holds `sub`, an occurrence follows it, and when it does not, it is all of `s` |
| PyText.BeforeIsFirst | convert_to_llm.py:93 | The occurrence `split(sub)[0]` stops at is the first: no occurrence of `sub` starts inside the result |
| PyText.BeforeKeep | convert_to_llm.py:93 | A character that cannot start `sub` is kept, and the search goes on after it |
| PyText.BeforeKeepPrefix | convert_to_llm.py:93 | A prefix without the first character of `sub` is kept whole |
| PyText.Replace | convert_to_llm.py:88 | Every character of `replace(old, new)` comes from the string or the replacement |
| PyText.ReplaceFront | convert_to_llm.py:88 | An occurrence at the front is replaced and the scan resumes after it |
| PyText.ReplaceDoesNotOverlap | convert_to_llm.py:88 | Occurrences do not overlap: replacing double blanks by one in three blanks leaves two |
| PyText.ReplaceKeep | convert_to_llm.py:88 | A character that cannot start an occurrence is copied and the scan resumes after it |
| PyText.ReplaceKeepPrefix | convert_to_llm.py:88 | A prefix without the first character of the pattern is copied whole |
| PyText.ReplaceNoStart | convert_to_llm.py:88 | A string without the pattern's first character is left alone |
| PyText.ReplaceRemovesChar | convert_to_llm.py:88 | Replacing a character by text without it removes every copy |
| PyText.ReplaceAbsentChar | scrape_intel_ark.py:71 | Replacing a character the string lacks changes nothing |
| PyText.ContainsChar | convert_to_llm.py:92 | A one-character `in` test is membership of the character |
| PyText.ContainsFirst | convert_to_llm.py:92 | `sub in s` needs the first character of `sub` in `s` |
| PyText.ContainsInStrip | convert_to_llm.py:93-95 | Whatever the stripped string contains, the original contains |
| PyText.TakeWord | scrape_intel_ark.py:71 | The longest whitespace-free prefix: ends at whitespace or at the end |
| PyText.Words | scrape_intel_ark.py:71 | `split()` yields only non-empty, whitespace-free fields |
| PyText.WordsOfJoin | scrape_intel_ark.py:71 | `split()` gives back the words that `" ".join` joined |
| PyText.JoinShape | scrape_intel_ark.py:71 | `" ".join` of words has single spaces only between words, and is empty exactly when there are no words |
| PyText.CollapseIsJoin | scrape_intel_ark.py:71 | The one-pass scan yields the words of its input joined by single spaces |
| PyText.CollapseIgnoresNbsp | scrape_intel_ark.py:71 | Replacing no-break spaces by spaces first changes nothing the scan sees |
| PyText.NormalizeTextIsComposition | scrape_intel_ark.py:70-71 | `NormalizeText` equals the source's composition (replace U+00A0, `split`, `" ".join`, `strip`); the result is normalized |
| PyText.NormalizeTextNormalized | scrape_intel_ark.py:70-71 | The result has no leading or trailing space, no two spaces in a row, no U+00A0 and no whitespace other than a plain space |
| PyText.NormalizeTextIdempotent | scrape_intel_ark.py:70-71 | Normalizing twice is normalizing once |
| PyText.NormalizeTextEmpty | scrape_intel_ark.py:70-71 | The result is empty exactly when the input holds no word |
| PyText.NormalizeNbspExample | scrape_intel_ark.py:70-71 | A value with a no-break space and a trailing blank comes out single-spaced and trimmed |
| PyText.NormalizeThreeWords | scrape_intel_ark.py:70-71 | Three words with runs of blanks around and between them come out separated by single spaces |
| PyText.NormalizeLabelExample | scrape_intel_ark.py:70-71 | A label with outer blanks and a double space inside comes out trimmed and single-spaced |
| Ordering.StrLessIrreflexive | scrape_intel_ark.py:440 | String order is irreflexive |
| Ordering.StrLessAsymmetric | scrape_intel_ark.py:440 | String order is asymmetric |
| Ordering.StrLessTransitive | scrape_intel_ark.py:440 | String order is transitive |
| Ordering.StrLessTotal | scrape_intel_ark.py:440 | Any two distinct strings are ordered |
| Ordering.KeyLessTransitive | convert_to_wide.py:76-84 | The two-part key order `(rank, column)` is transitive |
| Ordering.KeyLessTotal | convert_to_wide.py:76-84 | Distinct columns are ordered by the two-part key |
| Ordering.SortBy | convert_to_wide.py:84 | `sorted(..., key=...)` of a set lists each element once, nothing else, strictly ascending by `(key(x), x)` |
| Ordering.SortStrings | convert_to_wide.py:97 | `sorted` of a set of strings lists each element once, nothing else, in strictly ascending string order |
| Ordering.SortByIsUnique | convert_to_wide.py:84 | Any ascending listing of the set is the one `SortBy` gives, so the result is determined |
| Ordering.StringOrderIsNotNumeric | scrape_intel_ark.py:440 | Ordering by SKU is by code point: `"100"` comes before `"99"` |
| ODicts.PutSpec | convert_to_llm.py:65 | A `dict` assignment sets the key's value, leaves every other key alone, and appends the key to the order only when it is new |
| ODicts.PutPut | convert_to_llm.py:65 | Assigning a key twice is assigning the second value |
| ODicts.DedupSpec | convert_to_llm.py:51 | The de-duplicated keys are distinct and are exactly the keys seen |
| ODicts.FoldUpsertSpec | convert_to_llm.py:45-65 | After a grouping loop, the dictionary's keys are the distinct keys of the items in order of first appearance |
| ODicts.FoldUpsertAt | convert_to_llm.py:45-65 | The entry of a key is built from exactly the items with that key, in order |
| ODicts.FoldLastWinsUniform | convert_to_llm.py:143-146 | When every assignment to a key carries the same value, that value is kept |
| ScrapeState.InsertAllKeys | scrape_intel_ark.py:124-141 | After an `INSERT OR IGNORE` batch the table holds exactly the old keys and the batch's keys: nothing is removed |
| ScrapeState.InsertAllKeepsExisting | scrape_intel_ark.py:124-141 | A key already present keeps its row, whatever the batch holds |
| ScrapeState.InsertAllFirstWins | scrape_intel_ark.py:124-141 | A new key gets the row of its first occurrence in the batch |
| ScrapeState.InsertAllConcat | scrape_intel_ark.py:124-141 | Two batches in turn store the same as one batch of both |
| ScrapeState.InsertAllPresent | scrape_intel_ark.py:124-141 | A batch whose keys are all present changes nothing |
| ScrapeState.InsertAllIdempotent | scrape_intel_ark.py:124-141 | Storing the same batch twice is storing it once |
| ScrapeState.SeriesEntries | scrape_intel_ark.py:124-129 | Series rows are keyed by URL, one per link, in order |
| ScrapeState.SkuEntries | scrape_intel_ark.py:132-141 | SKU rows are keyed by SKU, one per link, in order |
| ScrapeState.SeriesStayKeyed | scrape_intel_ark.py:124-129 | Storing series keeps every row under its own URL |
| ScrapeState.SkusStayKeyed | scrape_intel_ark.py:132-141 | Storing SKUs keeps every row under its own SKU |
| ScrapeState.OutcomeSetsPartition | scrape_intel_ark.py:114-121 | The done set and the failed set are disjoint, and together they are the outcome table's keys |
| ScrapeState.MarkMovesSku | scrape_intel_ark.py:144-152 | An upsert moves the SKU into the set of its new status and out of the other set; no other SKU moves |
| ScrapeState.StateStore.constructor | scrape_intel_ark.py:78-111 | A new database has three empty tables |
| ScrapeState.StateStore.StoreSeries | scrape_intel_ark.py:124-129 | The series table becomes the insert-or-ignore of the batch keyed by URL; the other tables are unchanged |
| ScrapeState.StateStore.StoreSkus | scrape_intel_ark.py:132-141 | The SKU table becomes the insert-or-ignore of the batch keyed by SKU; the other tables are unchanged |
| ScrapeState.StateStore.MarkSku | scrape_intel_ark.py:144-152 | The outcome table maps the SKU to exactly this timestamp, status and error; every other SKU and the other tables are unchanged |
| Sink.DataRows | scrape_intel_ark.py:345-361 | One nine-field row per fact, in fact order: the product's five fields, the fact, and one shared `scraped_at` |
| Sink.DataRowsConcat | scrape_intel_ark.py:347-361 | Writing two runs of facts writes the rows of their concatenation |
| Sink.CsvFile.constructor | scrape_intel_ark.py:325 | A log file that does not exist yet holds no records |
| Sink.CsvFile.WriteCsvRows | scrape_intel_ark.py:316-363 | The old records are kept as a prefix; the header is appended only if the file did not exist; then exactly the data rows; the count returned is the number of facts |
| Retry.Backoffs | scrape_intel_ark.py:29 | The sleep before attempt `k + 1` is `2 * k` seconds |
| Retry.GotoWithRetry | scrape_intel_ark.py:20-31 | `goto` is called at most `attempts` times. The call returns on the first success. It fails only when every one of the `attempts` calls failed, and then with the last error. The sleeps are `2, 4, …` between calls |
| Discovery.Open | scrape_intel_ark.py:192-193 | Opening a page ends with the first error of navigation and the wait, if any |
| Discovery.CategoryNamesSpec | scrape_intel_ark.py:195-199 | Every non-empty raw name is kept, normalized; nothing else is kept |
| Discovery.DiscoverProcessorCategories | scrape_intel_ark.py:191-199 | Fails with the error of the panel page, else returns the category names |
| Discovery.SeriesLinkOfSpec | scrape_intel_ark.py:224-231 | A kept link has an `href` and a non-empty normalized text and points to a series page; the series carries the category, that text and the absolute URL |
| Discovery.SeriesOfSpec | scrape_intel_ark.py:223-232 | Every kept series comes from a link that passes the filter, and every such link is kept |
| Discovery.SeriesOfBelong | scrape_intel_ark.py:231 | A kept series belongs to the category it was read from |
| Discovery.SeriesOfConcat | scrape_intel_ark.py:224-231 | Links are judged one by one and the kept ones stay in input order |
| Discovery.DiscoverSeriesForCategory | scrape_intel_ark.py:202-232 | Fails with the error of the page or click; otherwise returns the filtered links in order, a malformed link never aborting |
| Discovery.SkuLinkOfSpec | scrape_intel_ark.py:253-268 | A kept row has a stripped non-empty SKU and a specifications link; the SKU link carries the series' category and family and a normalized name |
| Discovery.SkusOfSpec | scrape_intel_ark.py:251-270 | Every kept SKU comes from a row that passes the filter, and every such row is kept |
| Discovery.SkusOfBelong | scrape_intel_ark.py:260-268 | A kept SKU carries the category and family of its series |
| Discovery.SkusOfConcat | scrape_intel_ark.py:252-268 | Rows are judged one by one and the kept ones stay in input order |
| Discovery.SkusOfPrefix | scrape_intel_ark.py:252-268 | One more row adds exactly that row's yield at the end |
| Discovery.CollectSkuLinks | scrape_intel_ark.py:251-270 | The row loop returns exactly the filtered SKU links in order |
| Discovery.ExtractSkusFromSeriesPage | scrape_intel_ark.py:235-270 | Fails with the page's error; otherwise returns the filtered SKU links, a malformed row never aborting |
| Discovery.PairFactSpec | scrape_intel_ark.py:306-311 | A row yields a fact exactly when its normalized label and value are both non-empty; the fact is the section's group with that label and value, all three normalized |
| Discovery.PairFactsConcat | scrape_intel_ark.py:306-311 | Row order is preserved: the facts of two runs of rows are those of the first, then those of the second |
| Discovery.PairFactsSpec | scrape_intel_ark.py:306-311 | A section's facts carry its heading, and every row with a label and value is kept |
| Discovery.SpecFactsSpec | scrape_intel_ark.py:285-313 | Every fact has a non-empty normalized group, name and value; its group is a section's heading |
| Discovery.SpecFactsConcat | scrape_intel_ark.py:286-311 | Section order is preserved |
| Discovery.SpecFactsFrom | scrape_intel_ark.py:285-313 | Every fact of a page comes from one row of one section with a non-empty heading: that heading, the row's normalized label and value |
| Discovery.SpecFactsHas | scrape_intel_ark.py:285-313 | Every row with a non-empty label and value, in a section with a non-empty heading, gives its fact on the page |
| Discovery.AppendPairRows | scrape_intel_ark.py:306-311 | The inner loop appends exactly the section's facts, in row order |
| Discovery.CollectSectionRows | scrape_intel_ark.py:285-311 | The section loop skips sections whose heading is empty and appends the facts of the others in page order |
| Discovery.ScrapeSpecRows | scrape_intel_ark.py:273-313 | Fails with the page's error; otherwise returns the normalized title (attribute, else page title) and the facts |
| LongCsv.SpecKeyColon | convert_to_llm.py:146 | A specification key holds a `:` right after the group |
| LongCsv.SpecKeyInjective | convert_to_wide.py:55 | When groups hold no `:`, the key determines the group and the name |
| LongCsv.GroupOrderDistinct | convert_to_llm.py:30-40 | The canonical order is nine distinct group names |
| ScrapeRun.ShouldBlockRequest | scrape_intel_ark.py:162-166 | A request is blocked exactly when it is for an image, media or a font |
| ScrapeRun.SortedRowsSpec | scrape_intel_ark.py:436-442 | The table read in SKU order is every row once, in strictly ascending SKU order |
| ScrapeRun.UncappedSpec | scrape_intel_ark.py:444-447 | Before the cap the queue is exactly the table rows not done (and not failed, unless errors are retried), in SKU order |
| ScrapeRun.PendingSpec | scrape_intel_ark.py:436-449 | The queue holds only eligible table rows, in SKU order. It is a prefix of the uncapped queue, of length `max_skus` when that is positive and smaller. An eligible SKU is missing only when the cap cut it, after every queued one |
| ScrapeRun.AllDoneNothingPending | scrape_intel_ark.py:444-449 | Once every discovered SKU is done, the queue is empty |
| ScrapeRun.ThreeRowsSorted | scrape_intel_ark.py:436-442 | A three-row table is read in SKU order |
| ScrapeRun.FailedNotRetried | scrape_intel_ark.py:446-447 | With `A` done, `B` failed and `C` new, the queue is `[C]` |
| ScrapeRun.FailedRetried | scrape_intel_ark.py:444-445 | With errors retried, the same queue is `[B, C]` |
| ScrapeRun.ItemOutcomeSpec | scrape_intel_ark.py:460-483 | A SKU ends `ok` exactly when its page was read and the checkpoint after it, if any, did not raise; `ok` exactly when no error is stored; a failed page appends no rows |
| ScrapeRun.QueueStep | scrape_intel_ark.py:453-483 | One more queue position marks that SKU with its own outcome and adds a cookie save when the position is a multiple of 25 and its page was read |
| ScrapeRun.LoggedNothing | scrape_intel_ark.py:462-473 | When no page was read, nothing was logged |
| ScrapeRun.HeaderOnce | scrape_intel_ark.py:325-343 | The one-step identity of the log: appending one SKU's write (header only if no earlier write created the file) to the log so far gives the log with the header placed once, before the first data rows. `ScrapeRun.ScrapeQueue`'s ensures establishes header-once across the whole loop |
| ScrapeRun.ScrapeOne | scrape_intel_ark.py:453-483 | One SKU: the outcome table gets its outcome; rows (and the header for a new file) are appended only when its page was read; cookies are saved at each 25th position |
| ScrapeRun.ScrapeQueue | scrape_intel_ark.py:453-483 | After the loop the outcome table, log and checkpoints are those of the queue, SKU by SKU; the discovery tables are unchanged |
| ScrapeRun.MarkedKeys | scrape_intel_ark.py:474-482 | After the loop the outcome table holds the old SKUs and the queued ones |
| ScrapeRun.MarkedElsewhere | scrape_intel_ark.py:474-482 | A SKU that was not queued keeps its old outcome |
| ScrapeRun.MarkedAt | scrape_intel_ark.py:453-483 | Each queued SKU holds the outcome of its own position |
| ScrapeRun.ProcessedNotRequeued | scrape_intel_ark.py:446-447 | Without retrying errors, a processed SKU is never queued again; it is done exactly when its outcome was `ok` |
| ScrapeRun.UnqueuedKeepsStatus | scrape_intel_ark.py:474-482 | A SKU the run did not queue is done or failed afterwards exactly when it was before |
| ScrapeRun.EligibleAfter | scrape_intel_ark.py:446-447 | Without retrying errors, a SKU is eligible after the run exactly when it was eligible before and was not queued |
| ScrapeRun.AscendingUnique | scrape_intel_ark.py:436-442 | Two queues ascending by SKU with the same rows are equal |
| ScrapeRun.DropFront | scrape_intel_ark.py:446-449 | Removing the first `n` SKUs of an ascending queue leaves its suffix |
| ScrapeRun.NextRunResumes | scrape_intel_ark.py:436-483 | Resumability: the next run's uncapped queue is this run's with the processed SKUs taken off the front |
| ScrapeRun.LoggedPrefix | scrape_intel_ark.py:453-473 | The rows of earlier positions come before those of later ones |
| ScrapeRun.OkSkuIsLogged | scrape_intel_ark.py:462-474 | A SKU marked `ok` had its page read, and its rows are in the log right after those of the earlier positions |
| ScrapeRun.WalkPagesSpec | scrape_intel_ark.py:416-431 | The walk completes exactly when every page opens, and then it has collected every page's yield in order. Otherwise it stops at the first failing page with its error, holding only the yield of the pages before it |
| ScrapeRun.WalkPagesStops | scrape_intel_ark.py:416-431 | Once the walk has stopped, later items change nothing |
| ScrapeRun.WalkFoundFrom | scrape_intel_ark.py:416-431 | Everything collected comes from one of the items |
| ScrapeRun.DiscoverySpec | scrape_intel_ark.py:410-431 | Discovery completes exactly when the panel, every category and every series page open. It then holds the series of every category and the SKUs of every series, in page order |
| ScrapeRun.DiscoveryTraces | scrape_intel_ark.py:410-431 | Every series belongs to a panel category, and every SKU to the category and family of a discovered series |
| ScrapeRun.DiscoveryIdempotent | scrape_intel_ark.py:124-141 | Storing what discovery found a second time changes neither table |
| ScrapeRun.StoreSeriesWalk | scrape_intel_ark.py:416-421 | The category loop stores the series it collected, insert-or-ignore, and stops at the first failing category |
| ScrapeRun.StoreSkusWalk | scrape_intel_ark.py:426-431 | The series loop stores the SKUs it collected, insert-or-ignore, and stops at the first failing series page |
| ScrapeRun.DiscoverAll | scrape_intel_ark.py:410-431 | Discovery's error, and the series and SKU tables it leaves, are those of the walk; the outcome table is unchanged |
| ScrapeRun.RunScraper | scrape_intel_ark.py:400-483 | The queue is computed from the done and failed sets loaded before discovery. The series and SKU tables gain what discovery found, or stay as they were when it is skipped. A discovery error ends the run with no SKU scraped and the log untouched. Otherwise the outcome table, the log, whether the log file exists, and the checkpoints are those of the queue |
| LlmExport.AggGroup | convert_to_llm.py:62-65 | A group's dictionary holds its names in first-seen order, each with its last value |
| LlmExport.AggProduct | convert_to_llm.py:51-65 | A SKU's entry has the metadata of its first row and its rows grouped by group |
| LlmExport.CollectedSpec | convert_to_llm.py:45-65 | One entry per distinct SKU, in order of first appearance, each built from exactly that SKU's rows |
| LlmExport.GroupsSpec | convert_to_llm.py:62-65 | Within an entry, groups are in order of first appearance and each holds exactly that group's rows |
| LlmExport.FirstRowMetadata | convert_to_llm.py:51-59 | The metadata of a SKU is that of its first row |
| LlmExport.CollectedOrder | convert_to_llm.py:62-65 | Group and name order within an entry follow first appearance among the SKU's rows |
| LlmExport.LastValueWins | convert_to_llm.py:65 | The value kept for `(group, name)` is that of the SKU's last row with that group and name |
| LlmExport.TakeCanonical | convert_to_llm.py:70-72 | The first reorder loop takes the canonical groups the entry has, in canonical order, with their dictionaries |
| LlmExport.TakeOthersStep | convert_to_llm.py:74-76 | One step of the second loop adds the group exactly when it is not canonical |
| LlmExport.TakeOthers | convert_to_llm.py:74-76 | The second loop appends the remaining groups in first-seen order, with their dictionaries |
| LlmExport.PickedAll | convert_to_llm.py:67-77 | Once every group is taken, the rebuilt specifications are the reordered ones |
| LlmExport.ReorderGroups | convert_to_llm.py:69-77 | Rebuilding an entry's specifications yields the canonical groups, then the rest |
| LlmExport.ReorderedPermutes | convert_to_llm.py:67-77 | Reordering permutes the groups and leaves every group's dictionary unchanged |
| LlmExport.ReorderedCanonicalFirst | convert_to_llm.py:70-72 | The canonical groups come first, in canonical order |
| LlmExport.ReorderedOthersInSeenOrder | convert_to_llm.py:74-76 | The other groups follow, in first-seen order |
| LlmExport.CollectRows | convert_to_llm.py:45-65 | The row loop builds exactly the per-SKU grouping |
| LlmExport.ReorderAll | convert_to_llm.py:67-77 | The reorder loop keeps the SKUs and their order and reorders every entry's groups |
| LlmExport.LoadLongCsv | convert_to_llm.py:24-79 | `load_long_csv` returns the grouping with every entry's groups reordered |
| LlmExport.LoadedSpec | convert_to_llm.py:24-79 | One entry per distinct SKU, in order of first appearance, with first-row metadata and groups permuted into canonical order |
| LlmExport.CutAtSpec | convert_to_llm.py:92-93 | Cutting at a suffix adds no character and leaves no occurrence of the suffix |
| LlmExport.CutAllSpec | convert_to_llm.py:91-93 | After the suffix loop no tried suffix remains and no character was added |
| LlmExport.CleanMarksSpec | convert_to_llm.py:88 | The cleaned name has no registered or trademark sign |
| LlmExport.ModelNameSpec | convert_to_llm.py:82-95 | A model name has no registered or trademark sign, contains neither `Processor` nor `processor`, and has no whitespace at either end |
| LlmExport.CutAllTwo | convert_to_llm.py:91-93 | The suffix loop over two suffixes cuts at the first, then at the second |
| LlmExport.CleanMarksOfPlain | convert_to_llm.py:88 | The replacements leave a model, a blank and a word without signs or blanks unchanged |
| LlmExport.CutAtOfPlain | convert_to_llm.py:92-93 | Cutting a model, a blank and a suffix at that suffix gives the model |
| LlmExport.CutAtAbsent | convert_to_llm.py:92 | A name without the suffix's first character is not cut |
| LlmExport.ModelNameOfPlain | convert_to_llm.py:82-95 | A model without blanks, signs, `P` or `p`, followed by " Processor", is its own model name (so a name such as `i7-11850HE Processor` gives `i7-11850HE`) |
| LlmExport.ExtractModelName | convert_to_llm.py:82-95 | The method computes the model name and its result has those three properties |
| LlmExport.BuildByModel | convert_to_llm.py:222-246 | The loop over the entries builds exactly `by_model` |
| LlmExport.ByModelIsFold | convert_to_llm.py:242-246 | Storing records one by one is assigning each its chosen key in turn |
| LlmExport.ByModelSpec | convert_to_llm.py:242-246 | The keys are the chosen keys without repeats, in order; a key chosen for no later entry holds its entry's record |
| LlmExport.ByModelGrows | convert_to_llm.py:242-246 | Keys are never removed |
| LlmExport.ByModelKeysFrom | convert_to_llm.py:242-246 | Every key was chosen for some entry stored so far |
| LlmExport.RepeatedModelGetsSku | convert_to_llm.py:243-245 | A later record with a model name already seen is stored under the name with its SKU appended |
| LlmExport.FirstModelIsBare | convert_to_llm.py:243-245 | The first record with a model name is stored under the bare name (when the name does not end with `)`) |
| LlmExport.SkuKeyInjective | convert_to_llm.py:245 | Two SKU-suffixed keys are equal only for the same model and SKU, when SKUs hold no `(` |
| LlmExport.ChosenKeysDistinct | convert_to_llm.py:242-246 | With distinct SKUs without `(` and model names not ending in `)`, all chosen keys differ |
| LlmExport.NoRecordLost | convert_to_llm.py:242-246 | Under those conditions `by_model` holds every record under its chosen key |
| LlmExport.SuffixKeyCollision | convert_to_llm.py:242-246 | Without them a record can be lost: a record whose model name equals the suffixed key of a later repeat is overwritten by it |
| LlmExport.GroupPairs | convert_to_llm.py:145-146 | A group's assignments are its names in order, each with key `group: name` and its value |
| LlmExport.FlattenSpecs | convert_to_llm.py:143-146 | The two nested loops build exactly the flat dictionary |
| LlmExport.FlatPairFrom | convert_to_llm.py:143-146 | Every assignment comes from a specification of the entry |
| LlmExport.FlatPairHas | convert_to_llm.py:143-146 | Every specification of the entry is assigned |
| LlmExport.FlattenedSpec | convert_to_llm.py:143-146 | When groups hold no `:`, every `(group, name)` maps to its value under `group: name` |
| LlmExport.FlattenedKeys | convert_to_llm.py:143-146 | Every flat key is the key of some specification |
| LlmExport.GroupLines | convert_to_llm.py:176-179 | A group takes its specification count plus two lines |
| LlmExport.AppendGroupLines | convert_to_llm.py:176-179 | One outer pass appends the group's heading, its specification lines and a blank line |
| LlmExport.AppendAllGroups | convert_to_llm.py:175-179 | The outer loop appends every group's lines, in order |
| LlmExport.GenerateTextBlock | convert_to_llm.py:165-181 | The method returns the header and groups' lines joined by newlines |
| LlmExport.TextLineCount | convert_to_llm.py:165-181 | A text block has 5 + the sum over groups of (specifications + 2) lines |
| LlmExport.GroupLinesSpec | convert_to_llm.py:176-179 | A group's block is `group:`, then `  name: value` per specification in order, then a blank line |
| LlmExport.BodyLayout | convert_to_llm.py:175-179 | Each group's block sits in the body right after the lines of the groups before it |
| LlmExport.GroupBlockIs | convert_to_llm.py:176-179 | The block of the group at a position is that group's lines |
| LlmExport.BlockStartIs | convert_to_llm.py:175-179 | A block starts after the heading, blank line and specification lines of every earlier group |
| LlmExport.TextBlockLayout | convert_to_llm.py:167-181 | The text starts with the five header lines, followed by the groups' lines |
| WidePivot.ReadStep | convert_to_wide.py:48-70 | One row creates its SKU's dictionary if new, sets its column, and records the column |
| WidePivot.ReadRows | convert_to_wide.py:48-70 | The read loop builds exactly the per-SKU dictionaries and the ordered set of columns |
| WidePivot.MetaColsPlain | convert_to_wide.py:87 | No metadata column name holds a `:` |
| WidePivot.MetaColsDistinct | convert_to_wide.py:87 | The six metadata columns are distinct |
| WidePivot.AggWide | convert_to_wide.py:55-70 | In a SKU's dictionary, a key with `:` holds the last value for that column, and a key without one holds the first row's metadata |
| WidePivot.WideDataSpec | convert_to_wide.py:48-70 | One dictionary per distinct SKU, in order of first appearance, built from exactly that SKU's rows |
| WidePivot.WideFirstRowMetadata | convert_to_wide.py:59-67 | The metadata, `scraped_at` included, is that of the SKU's first row |
| WidePivot.WideLastValueWins | convert_to_wide.py:55-70 | A column holds the value of the SKU's last row with that column |
| WidePivot.GroupOfColumn | convert_to_wide.py:77 | The text before the first `:` of a column is its group, when groups hold no `:` |
| WidePivot.ColumnRankSpec | convert_to_wide.py:76-82 | A column ranks by its group's canonical index, or by 9 for an unknown group |
| WidePivot.SortedColumnsSpec | convert_to_wide.py:84 | The spec columns are every distinct input column, each once, ascending by (canonical rank, column) |
| WidePivot.SortedDistinct | convert_to_wide.py:84 | No sorted column appears twice |
| WidePivot.HeaderSpec | convert_to_wide.py:87-88 | The header is the metadata columns followed by the sorted spec columns, with no column twice |
| WidePivot.SpecColumnsNotMeta | convert_to_wide.py:87-88 | No spec column is a metadata column |
| WidePivot.FilledSpec | convert_to_wide.py:100-102 | Filling keeps every value, gives every missing spec column `""` and adds nothing else |
| WidePivot.FillMissing | convert_to_wide.py:100-102 | The fill loop computes exactly the filled dictionary |
| WidePivot.Cells | convert_to_wide.py:93-103 | The writer puts one cell per header column |
| WidePivot.WriteRows | convert_to_wide.py:96-103 | The output loop writes, for each SKU in order, the row of its filled dictionary |
| WidePivot.ConvertLongToWide | convert_to_wide.py:23-103 | The procedure produces exactly the pivot of its input rows |
| WidePivot.PivotIs | convert_to_wide.py:96-103 | Rows that agree with each sorted SKU's row are the pivot's rows |
| WidePivot.PivotRows | convert_to_wide.py:96-103 | One row per distinct SKU, in strictly ascending SKU order, each as wide as the header |
| WidePivot.PivotRowSku | convert_to_wide.py:60-61 | A row's first cell is its SKU |
| WidePivot.PivotCellIs | convert_to_wide.py:97-103 | Every cell is the SKU's value in that column, else `""` |
| WidePivot.PivotMetaCell | convert_to_wide.py:59-67 | A metadata cell holds the field of the SKU's first row |
| WidePivot.PivotSpecCell | convert_to_wide.py:55-70 | A spec cell holds the value of the SKU's last row in that column, else `""` |
| WidePivot.FillInvisible | convert_to_wide.py:93-103 | Filling changes no output cell, because the writer already writes `""` for a missing key |
| WidePivot.FilledComplete | convert_to_wide.py:100-102 | After filling, every spec column has a value |

## Left out

- The browser is not modelled. Navigation, selector waits, clicks, in-page scripts and the context and route set-up in `new_page` are an oracle. A page is a value that says:
  - how each `goto` attempt ends;
  - whether the wait (or the category tile click) succeeds. A failed wait also stands for every other failure while the page is read: the title attribute, the section list, a section heading's `text_content` and the row records. Each of these raises into the same `except` and ends the SKU the same way;
  - which raw records the page returns.
- `wait_for_ark_ready` and `wait_for_specs_ready` are folded into that wait outcome.
- The fixed 800 ms wait after the tile click is left out: it is a timing detail.
- SQLite mechanics are not modelled: connections, `PRAGMA journal_mode=WAL`, commits, row factories and table creation. The three tables are maps with their two write rules only.
- `to_abs_url` (`urljoin`) is a function parameter, because it is a foreign library.
- The clock (`utc_now_iso`) is modelled as readings passed in per queue position. `polite_sleep` and the random delays are not modelled; the retry backoff is returned as whole seconds instead of slept.
- CSV quoting and encoding, `csv.DictReader` parsing and `json.dump` are not modelled. The converters receive the long CSV as a sequence of records, and the model stops at the in-memory structures.
- `write_markdown` and `write_text` are not modelled: their output is literal string formatting.
- The JSONL record fields other than `specs` and `text` are plain copies and are not modelled. The `sorted(..., key=product_name)` order of the JSONL, markdown and text outputs is not modelled either.
- `argparse`, `configure_console_utf8`, file-existence checks and all `print` output are not modelled, including the column summary at the end of the pivot. The same goes for the unused `SKU_RE` and for closing the browser.
- A detail page is fixed per URL: the browser oracle maps each `spec_url` to one page with one set of `goto` outcomes, so two queued SKUs that share a `spec_url` see the same page and the same navigation outcomes, where the live site could answer them differently.
- The cookie save after the loop ends is not modelled. Saves inside the loop are modelled as checkpoints with an outcome.
- Failures of `mark_sku` and of `write_csv_rows` themselves are not modelled. A failing cookie checkpoint is modelled; it turns an `ok` mark into `error`.
- An error during discovery ends the run: nothing catches it around the discovery loops (scrape_intel_ark.py:410-431), so the first failing page ends the run.
- LlmExport.ReorderGroups: the canonical group list is a parameter, and `LoadLongCsv` passes the source's nine names.
- LlmExport.FlattenedSpec: it is stated only for groups without `:`. With such a group, two different `(group, name)` pairs can share a `group: name` key, `FlattenedKeys` still holds, and the later assignment wins.
- WidePivot.ColumnRankSpec: the same applies. A group with `:` ranks by the text before its first `:`, which is what the code computes.
- The fill loop changes `sku_data` in place. The model computes a filled copy, because the change cannot be observed: `FillInvisible` shows the output is the same.
- Python's nested dictionaries are values here. No aliasing between `sku_data` and the JSON records is modelled, because neither is changed afterwards.
